/**
 Single-flight cached fetches (backend/lineage_service.py, and its second instance in
 backend/transform_service.py): a pool of per-key locks bounded in size, and callers that
 check the cache, lock their key, check again and only then fetch. The pool has a guard of
 its own, which taking a per-key lock does not touch.
 */
module SingleFlight {
  import opened Sequences
  import opened Wrappers

  type Key = string
  type LockId = nat

  // ---------------------------------------------------------------------------
  // The pool of locks
  // ---------------------------------------------------------------------------

  /** An ordered dictionary from keys to locks, oldest first; `nextLock` names the next lock
      to be created. */
  datatype Pool = Pool(order: seq<Key>, locks: map<Key, LockId>, nextLock: LockId)

  ghost predicate ValidPool(p: Pool)
  {
    && Lists(p.order, p.locks.Keys)
    && (forall k | k in p.locks :: p.locks[k] < p.nextLock)
    && (forall k, m | k in p.locks && m in p.locks && p.locks[k] == p.locks[m] :: k == m)
  }

  function Touch(p: Pool, key: Key): Pool
  {
    if key in p.locks then p.(order := Without(p.order, key) + [key])
    else Pool(p.order + [key], p.locks[key := p.nextLock], p.nextLock + 1)
  }

  function Rotated(p: Pool): Pool
    requires p.order != []
  {
    p.(order := p.order[1..] + [p.order[0]])
  }

  function Popped(p: Pool): Pool
    requires p.order != []
  {
    p.(order := p.order[1..], locks := p.locks - {p.order[0]})
  }

  /** The oldest entry is a lock in use. */
  predicate OldestInUse(p: Pool, locked: set<LockId>)
  {
    p.order != [] && p.order[0] in p.locks && p.locks[p.order[0]] in locked
  }

  /** The eviction loop: oldest first, stopping at the first lock that is in use when it is
      tested. `locked(k)` are the locks in use at the loop's test number `k`. */
  function Trim(p: Pool, max: nat, locked: nat -> set<LockId>, k: nat): Pool
    decreases |p.order|
  {
    if |p.order| <= max then p
    else if OldestInUse(p, locked(k)) then Rotated(p)
    else Trim(Popped(p), max, locked, k + 1)
  }

  lemma TouchKeepsValid(p: Pool, key: Key)
    requires ValidPool(p)
    ensures ValidPool(Touch(p, key)) && key in Touch(p, key).locks && Newest(Touch(p, key), key)
    ensures forall k | k in p.locks :: k in Touch(p, key).locks && Touch(p, key).locks[k] == p.locks[k]
  {
    if key in p.locks {
      WithoutMember(p.order, key);
      ListsAdd(Without(p.order, key), p.locks.Keys - {key}, key);
    } else {
      ListsAdd(p.order, p.locks.Keys, key);
    }
  }

  /** What trimming leaves: a part of the pool, with the newest key and every lock that is
      in use whenever it is tested. */
  ghost predicate Trimmed(p: Pool, q: Pool, locked: nat -> set<LockId>, newest: Key)
  {
    && ValidPool(q) && q.nextLock == p.nextLock
    && (forall k | k in q.locks :: k in p.locks && q.locks[k] == p.locks[k])
    && (forall k | k in p.locks && (k == newest || forall j :: p.locks[k] in locked(j)) :: k in q.locks)
  }

  lemma RotatePool(p: Pool)
    requires ValidPool(p) && p.order != []
    ensures ValidPool(Rotated(p))
  {
    var rest, oldest := p.order[1..], p.order[0];
    ListsTail(p.order, p.locks.Keys);
    ListsAdd(rest, p.locks.Keys - {oldest}, oldest);
    assert p.locks.Keys - {oldest} + {oldest} == p.locks.Keys;
  }

  lemma PopPool(p: Pool, locked: nat -> set<LockId>, k: nat, newest: Key)
    requires ValidPool(p) && |p.order| > 1 && !OldestInUse(p, locked(k)) && Newest(p, newest)
    ensures Trimmed(p, Popped(p), locked, newest) && Newest(Popped(p), newest)
  {
    PopValid(p);
    NewestIsNotOldest(p, newest);
  }

  lemma NewestIsNotOldest(p: Pool, newest: Key)
    requires ValidPool(p) && |p.order| > 1 && Newest(p, newest)
    ensures p.order[0] != newest
  {
    assert p.order[|p.order| - 1] == newest;
  }

  lemma PopValid(p: Pool)
    requires ValidPool(p) && p.order != []
    ensures ValidPool(Popped(p))
  {
    ListsTail(p.order, p.locks.Keys);
    assert (p.locks - {p.order[0]}).Keys == p.locks.Keys - {p.order[0]};
  }

  predicate Newest(p: Pool, key: Key)
  {
    p.order != [] && p.order[|p.order| - 1] == key
  }

  lemma TrimmedTwice(p: Pool, q: Pool, r: Pool, locked: nat -> set<LockId>, newest: Key)
    requires Trimmed(p, q, locked, newest) && Trimmed(q, r, locked, newest)
    ensures Trimmed(p, r, locked, newest)
  {
  }

  lemma {:induction false} TrimKeeps(p: Pool, max: nat, locked: nat -> set<LockId>, k: nat, newest: Key)
    requires ValidPool(p) && max >= 1 && Newest(p, newest)
    ensures Trimmed(p, Trim(p, max, locked, k), locked, newest)
    decreases |p.order|
  {
    if |p.order| > max {
      if OldestInUse(p, locked(k)) {
        RotatePool(p);
      } else {
        PopPool(p, locked, k, newest);
        TrimKeeps(Popped(p), max, locked, k + 1, newest);
        TrimmedTwice(p, Popped(p), Trim(Popped(p), max, locked, k + 1), locked, newest);
      }
    }
  }

  predicate NewestInUse(p: Pool, locked: set<LockId>)
  {
    p.order != [] && p.order[|p.order| - 1] in p.locks && p.locks[p.order[|p.order| - 1]] in locked
  }

  /** Each of the `n` oldest locks is free at its own test. */
  ghost predicate FreeAtTests(p: Pool, locked: nat -> set<LockId>, k: nat, n: nat)
  {
    n <= |p.order| && forall j | 0 <= j < n :: p.order[j] in p.locks && p.locks[p.order[j]] !in locked(k + j)
  }

  /** `q` is `p` without its `n` oldest locks; and unless that is within the bound, the next
      lock, which is in use, has become the newest. */
  ghost predicate EndsAfter(p: Pool, q: Pool, max: nat, inUse: set<LockId>, n: nat)
  {
    && n <= |p.order| && q.locks == p.locks - Prefix(p.order, n)
    && if |p.order| - n <= max then q.order == p.order[n..]
       else NewestInUse(q, inUse) && q.order == p.order[n + 1..] + [p.order[n]]
  }

  lemma FreeOneMore(p: Pool, locked: nat -> set<LockId>, k: nat, m: nat)
    requires p.order != [] && p.order[0] in p.locks && p.locks[p.order[0]] !in locked(k)
    requires FreeAtTests(Popped(p), locked, k + 1, m)
    ensures FreeAtTests(p, locked, k, m + 1)
  {
    forall j | 0 <= j < m + 1 ensures p.order[j] in p.locks && p.locks[p.order[j]] !in locked(k + j) {
      if j > 0 {
        assert Popped(p).order[j - 1] == p.order[j] && (k + 1) + (j - 1) == k + j;
      }
    }
  }

  lemma EndsOneMore(p: Pool, q: Pool, max: nat, inUse: set<LockId>, m: nat)
    requires p.order != [] && EndsAfter(Popped(p), q, max, inUse, m)
    ensures EndsAfter(p, q, max, inUse, m + 1)
  {
    PrefixTail(p.order, m);
    var rest := p.order[1..];
    assert p.order[m + 1..] == rest[m..];
    assert p.locks - Prefix(p.order, m + 1) == p.locks - {p.order[0]} - Prefix(rest, m);
  }

  lemma EndsNow(p: Pool, max: nat, inUse: set<LockId>)
    requires ValidPool(p) && (|p.order| > max ==> OldestInUse(p, inUse))
    ensures EndsAfter(p, if |p.order| <= max then p else Rotated(p), max, inUse, 0)
  {
    assert p.locks - Prefix(p.order, 0) == p.locks;
    if |p.order| > max {
      assert NewestInUse(Rotated(p), inUse);
    }
  }

  ghost predicate Evicts(p: Pool, q: Pool, max: nat, locked: nat -> set<LockId>, k: nat, n: nat)
  {
    FreeAtTests(p, locked, k, n) && EndsAfter(p, q, max, locked(k + n), n)
  }

  lemma EvictsOneMore(p: Pool, q: Pool, max: nat, locked: nat -> set<LockId>, k: nat, m: nat)
    requires ValidPool(p) && p.order != [] && !OldestInUse(p, locked(k)) && Evicts(Popped(p), q, max, locked, k + 1, m)
    ensures Evicts(p, q, max, locked, k, m + 1)
  {
    FreeOneMore(p, locked, k, m);
    assert (k + 1) + m == k + (m + 1);
    EndsOneMore(p, q, max, locked(k + (m + 1)), m);
  }

  lemma EvictsNone(p: Pool, q: Pool, max: nat, locked: nat -> set<LockId>, k: nat)
    requires ValidPool(p) && (|p.order| > max ==> OldestInUse(p, locked(k))) && q == Trim(p, max, locked, k)
    ensures Evicts(p, q, max, locked, k, 0)
  {
    EndsNow(p, max, locked(k));
    assert k + 0 == k;
  }

  lemma {:induction false} EvictsSome(p: Pool, q: Pool, max: nat, locked: nat -> set<LockId>, k: nat)
    requires ValidPool(p) && q == Trim(p, max, locked, k)
    ensures exists n :: Evicts(p, q, max, locked, k, n)
    decreases |p.order|
  {
    if |p.order| <= max || OldestInUse(p, locked(k)) {
      EvictsNone(p, q, max, locked, k);
    } else {
      PopValid(p);
      EvictsSome(Popped(p), q, max, locked, k + 1);
      var m :| Evicts(Popped(p), q, max, locked, k + 1, m);
      EvictsOneMore(p, q, max, locked, k, m);
    }
  }

  lemma {:induction false} TrimLeavesMax(p: Pool, max: nat, locked: nat -> set<LockId>, k: nat)
    ensures |Trim(p, max, locked, k).order| == |p.order| || max <= |Trim(p, max, locked, k).order|
    decreases |p.order|
  {
    if |p.order| > max && !OldestInUse(p, locked(k)) {
      TrimLeavesMax(Popped(p), max, locked, k + 1);
    }
  }

  /** Exactly the `n` oldest locks go, each found free at its own test and no more of them
      than the bound asks for; the loop ends within the bound or at a lock in use. */
  lemma TrimEvicts(p: Pool, max: nat, locked: nat -> set<LockId>, k: nat) returns (n: nat)
    requires ValidPool(p)
    ensures Evicts(p, Trim(p, max, locked, k), max, locked, k, n)
    ensures n == 0 || max <= |p.order| - n
  {
    EvictsSome(p, Trim(p, max, locked, k), max, locked, k);
    TrimLeavesMax(p, max, locked, k);
    n :| Evicts(p, Trim(p, max, locked, k), max, locked, k, n);
  }

  /** `_keyed_locks` and its guard. Callers take and release the locks themselves without
      the guard, so the locks in use may be different at every test of the eviction loop. */
  class KeyedLocks {
    const max: nat
    var order: seq<Key>
    var locks: map<Key, LockId>
    var nextLock: LockId

    constructor (max: nat)
      ensures this.max == max && Current() == Pool([], map[], 0)
    {
      this.max := max;
      order, locks, nextLock := [], map[], 0;
    }

    ghost function Current(): Pool
      reads this
    {
      Pool(order, locks, nextLock)
    }

    /** Looks the key up or creates its lock; either way it becomes the newest. */
    method TouchKey(key: Key) returns (lock: LockId)
      modifies this
      ensures Current() == Touch(old(Current()), key)
      ensures key in locks && locks[key] == lock
    {
      if key !in locks {
        locks := locks[key := nextLock];
        order := order + [key];
        nextLock := nextLock + 1;
      } else {
        order := Without(order, key) + [key];
      }
      lock := locks[key];
    }

    method Evict(locked: nat -> set<LockId>)
      requires forall k | k in order :: k in locks
      requires NoDuplicates(order)
      modifies this
      ensures Current() == Trim(old(Current()), max, locked, 0)
    {
      var running, tests := true, 0;
      while running && |order| > max
        invariant forall k | k in order :: k in locks
        invariant NoDuplicates(order)
        invariant running ==> Trim(Current(), max, locked, tests) == Trim(old(Current()), max, locked, 0)
        invariant !running ==> Current() == Trim(old(Current()), max, locked, 0)
        decreases running, |order|
      {
        var oldest, rest := order[0], order[1..];
        assert order == [oldest] + rest;
        if locks[oldest] in locked(tests) {
          order := rest + [oldest];
          running := false;
        } else {
          order, locks, tests := rest, locks - {oldest}, tests + 1;
        }
      }
    }

    method GetKeyedLock(key: Key, locked: nat -> set<LockId>) returns (lock: LockId)
      requires ValidPool(Current()) && max >= 1
      modifies this
      ensures ValidPool(Current())
      ensures Current() == Trim(Touch(old(Current()), key), max, locked, 0)
      ensures key in locks && locks[key] == lock
    {
      TouchKeepsValid(Current(), key);
      lock := TouchKey(key);
      TrimKeeps(Current(), max, locked, 0, key);
      Evict(locked);
    }
  }

  // ---------------------------------------------------------------------------
  // Any interleaving of callers
  // ---------------------------------------------------------------------------

  datatype Answer = Nothing | Something(text: string)

  /** How a call ended. */
  datatype Reply = Returned(answer: Answer) | Raised

  /** In the lineage cache a stored None reads as a miss, in the transform cache it does
      not. The ledgers of `System` are kept for the key `watch`. */
  datatype Config = Config(max: nat, noneIsMiss: bool, watch: Key)

  datatype Pc =
    | Start
    | Looking
    | Trimming(lock: LockId)
    | Popping(lock: LockId)
    | Waiting(lock: LockId)
    | Locked(lock: LockId)
    | Fetching(lock: LockId)
    | Storing(lock: LockId, answer: Answer)
    | Leaving(lock: LockId, reply: Reply)
    | Finished(reply: Reply)

  datatype Call = Call(key: Key, skip: bool, pc: Pc)

  /** `guard`: the call inside `_get_keyed_lock`, which is `Trimming` at the head of the
      eviction loop and `Popping` after it found the oldest lock free. `strayed`: some lock
      was evicted after it was handed out and before it was released. `started` counts the fetches of the watched key that a cache miss began, `wasted` the
      events that leave it without a usable entry, `produced` what the fetchers returned. */
  datatype System = System(
    pool: Pool,
    guard: Option<nat>,
    owner: map<LockId, nat>,
    cache: map<Key, Answer>,
    calls: seq<Call>,
    strayed: bool,
    started: nat,
    wasted: nat,
    produced: set<(Key, Answer)>)

  datatype Move =
    | Arrive(key: Key, skip: bool)
    | Look(i: nat)
    | GetLock(i: nat)
    | Examine(i: nat)
    | Pop(i: nat)
    | Acquire(i: nat)
    | Recheck(i: nat)
    | Fetched(i: nat, reply: Reply)
    | Store(i: nat)
    | Unlock(i: nat)
    | Lose(key: Key)

  predicate Usable(c: Config, a: Answer)
  {
    a != Nothing || !c.noneIsMiss
  }

  predicate Hit(c: Config, cache: map<Key, Answer>, key: Key)
  {
    key in cache && Usable(c, cache[key])
  }

  predicate Enabled(s: System, m: Move)
  {
    match m
    case Arrive(_, _) => true
    case Look(i) => i < |s.calls| && s.calls[i].pc == Start
    case GetLock(i) => i < |s.calls| && s.calls[i].pc == Looking && s.guard == None
    case Examine(i) => i < |s.calls| && s.calls[i].pc.Trimming?
    case Pop(i) => i < |s.calls| && s.calls[i].pc.Popping? && s.pool.order != []
    case Acquire(i) => i < |s.calls| && s.calls[i].pc.Waiting? && s.calls[i].pc.lock !in s.owner
    case Recheck(i) => i < |s.calls| && s.calls[i].pc.Locked?
    case Fetched(i, _) => i < |s.calls| && s.calls[i].pc.Fetching?
    case Store(i) => i < |s.calls| && s.calls[i].pc.Storing?
    case Unlock(i) => i < |s.calls| && s.calls[i].pc.Leaving?
    case Lose(key) => key in s.cache
  }

  function At(s: System, i: nat, pc: Pc): seq<Call>
    requires i < |s.calls|
  {
    s.calls[i := s.calls[i].(pc := pc)]
  }

  predicate Critical(pc: Pc)
  {
    pc.Locked? || pc.Fetching? || pc.Storing? || pc.Leaving?
  }

  predicate UsesLock(pc: Pc)
  {
    pc.Trimming? || pc.Popping? || pc.Waiting? || Critical(pc)
  }

  /** A call has been handed the oldest lock and has not released it. */
  predicate OldestHandedOut(s: System)
  {
    s.pool.order != [] && s.pool.order[0] in s.pool.locks &&
    exists j :: 0 <= j < |s.calls| && UsesLock(s.calls[j].pc) && s.calls[j].pc.lock == s.pool.locks[s.pool.order[0]]
  }

  /** The guard is taken, and the key looked up or given a lock. */
  function Handed(s: System, i: nat): System
    requires Enabled(s, GetLock(i))
  {
    var touched := Touch(s.pool, s.calls[i].key);
    s.(pool := touched, guard := Some(i),
       calls := At(s, i, Trimming(touched.locks[s.calls[i].key])))
  }

  /** The loop test and the test of the oldest lock; the guard goes when the loop ends. */
  function Examined(c: Config, s: System, i: nat): System
    requires Enabled(s, Examine(i))
  {
    var lock := s.calls[i].pc.lock;
    if |s.pool.order| <= c.max then s.(guard := None, calls := At(s, i, Waiting(lock)))
    else if OldestInUse(s.pool, s.owner.Keys) then s.(pool := Rotated(s.pool), guard := None, calls := At(s, i, Waiting(lock)))
    else s.(calls := At(s, i, Popping(lock)))
  }

  /** The oldest lock goes, whatever has happened to it since its test. */
  function Evicted(s: System, i: nat): System
    requires Enabled(s, Pop(i))
  {
    s.(pool := Popped(s.pool), strayed := s.strayed || OldestHandedOut(s), calls := At(s, i, Trimming(s.calls[i].pc.lock)))
  }

  /** The lookups of a miss start a fetch, and are counted unless the cache is skipped. */
  function Rechecked(c: Config, s: System, i: nat): System
    requires Enabled(s, Recheck(i))
  {
    var call := s.calls[i];
    if !call.skip && Hit(c, s.cache, call.key) then s.(calls := At(s, i, Leaving(call.pc.lock, Returned(s.cache[call.key]))))
    else s.(calls := At(s, i, Fetching(call.pc.lock)), started := if call.key == c.watch && !call.skip then s.started + 1 else s.started)
  }

  function Answered(c: Config, s: System, i: nat, reply: Reply): System
    requires Enabled(s, Fetched(i, reply))
  {
    var call := s.calls[i];
    match reply
    case Returned(a) => s.(calls := At(s, i, Storing(call.pc.lock, a)), produced := s.produced + {(call.key, a)})
    case Raised => s.(calls := At(s, i, Leaving(call.pc.lock, Raised)), wasted := if call.key == c.watch then s.wasted + 1 else s.wasted)
  }

  function Stored(c: Config, s: System, i: nat): System
    requires Enabled(s, Store(i))
  {
    var call := s.calls[i];
    s.(calls := At(s, i, Leaving(call.pc.lock, Returned(call.pc.answer))), cache := s.cache[call.key := call.pc.answer],
       wasted := if call.key == c.watch && !Usable(c, call.pc.answer) then s.wasted + 1 else s.wasted)
  }

  function Apply(c: Config, s: System, m: Move): System
    requires Enabled(s, m)
  {
    match m
    case Arrive(key, skip) => s.(calls := s.calls + [Call(key, skip, Start)])
    case Look(i) =>
      if !s.calls[i].skip && Hit(c, s.cache, s.calls[i].key) then s.(calls := At(s, i, Finished(Returned(s.cache[s.calls[i].key]))))
      else s.(calls := At(s, i, Looking))
    case GetLock(i) => Handed(s, i)
    case Examine(i) => Examined(c, s, i)
    case Pop(i) => Evicted(s, i)
    case Acquire(i) => s.(owner := s.owner[s.calls[i].pc.lock := i], calls := At(s, i, Locked(s.calls[i].pc.lock)))
    case Recheck(i) => Rechecked(c, s, i)
    case Fetched(i, reply) => Answered(c, s, i, reply)
    case Store(i) => Stored(c, s, i)
    case Unlock(i) => s.(owner := s.owner - {s.calls[i].pc.lock}, calls := At(s, i, Finished(s.calls[i].pc.reply)))
    case Lose(key) => s.(cache := s.cache - {key}, wasted := if key == c.watch then s.wasted + 1 else s.wasted)
  }

  function Initial(): System
  {
    System(Pool([], map[], 0), None, map[], map[], [], false, 0, 0, {})
  }

  ghost predicate Runs(c: Config, s: System, moves: seq<Move>, end: System)
    decreases |moves|
  {
    if moves == [] then s == end
    else Enabled(s, moves[0]) && Runs(c, Apply(c, s, moves[0]), moves[1..], end)
  }

  // ---------------------------------------------------------------------------
  // Locks
  // ---------------------------------------------------------------------------

  /** A lock is owned exactly by the call that is between acquiring and releasing it. */
  ghost predicate OwnersMatch(s: System)
  {
    && (forall i | 0 <= i < |s.calls| && Critical(s.calls[i].pc) :: s.calls[i].pc.lock in s.owner && s.owner[s.calls[i].pc.lock] == i)
    && (forall l | l in s.owner :: s.owner[l] < |s.calls| && Critical(s.calls[s.owner[l]].pc) && s.calls[s.owner[l]].pc.lock == l)
  }

  /** Every lock a call waits for or holds is the registered lock of its key. */
  ghost predicate Registered(s: System)
  {
    forall i | 0 <= i < |s.calls| && UsesLock(s.calls[i].pc) ::
      s.calls[i].key in s.pool.locks && s.pool.locks[s.calls[i].key] == s.calls[i].pc.lock
  }

  /** What a move of one call leaves alone. */
  lemma MoveShape(c: Config, s: System, m: Move)
    requires Enabled(s, m) && !m.Arrive? && !m.Lose?
    ensures var s' := Apply(c, s, m);
            && s'.calls == At(s, m.i, s'.calls[m.i].pc)
            && (!m.GetLock? && !m.Pop? ==> s'.pool.locks == s.pool.locks)
            && (!m.GetLock? && !m.Examine? && !m.Pop? ==> s'.pool == s.pool && s'.guard == s.guard)
            && (!m.Acquire? && !m.Unlock? ==> s'.owner == s.owner)
            && (!m.Store? ==> s'.cache == s.cache)
            && s.produced <= s'.produced
  {
    var s' := Apply(c, s, m);
    assert s'.calls[m.i].key == s.calls[m.i].key && s'.calls[m.i].skip == s.calls[m.i].skip;
  }

  lemma OwnersMove(s: System, s': System, i: nat, pc: Pc)
    requires OwnersMatch(s) && i < |s.calls| && s'.calls == At(s, i, pc) && s'.owner == s.owner
    requires Critical(pc) == Critical(s.calls[i].pc) && (Critical(pc) ==> pc.lock == s.calls[i].pc.lock)
    ensures OwnersMatch(s')
  {
  }

  lemma OwnersAcquire(c: Config, s: System, i: nat)
    requires OwnersMatch(s) && Enabled(s, Acquire(i))
    ensures OwnersMatch(Apply(c, s, Acquire(i)))
  {
  }

  lemma OwnersUnlock(c: Config, s: System, i: nat)
    requires OwnersMatch(s) && Enabled(s, Unlock(i))
    ensures OwnersMatch(Apply(c, s, Unlock(i)))
  {
  }

  lemma OwnersMatchStep(c: Config, s: System, m: Move)
    requires OwnersMatch(s) && Enabled(s, m)
    ensures OwnersMatch(Apply(c, s, m))
  {
    var s' := Apply(c, s, m);
    match m
    case Arrive(_, _) =>
    case Lose(_) =>
    case Acquire(i) => OwnersAcquire(c, s, i);
    case Unlock(i) => OwnersUnlock(c, s, i);
    case _ =>
      MoveShape(c, s, m);
      OwnersMove(s, s', m.i, s'.calls[m.i].pc);
  }

  /** A new hand-out registers a lock and disturbs no other. */
  lemma HandedRegistered(s: System, i: nat)
    requires ValidPool(s.pool) && Registered(s) && Enabled(s, GetLock(i))
    ensures Registered(Handed(s, i))
  {
    TouchKeepsValid(s.pool, s.calls[i].key);
  }

  /** Unless the lock that goes has been handed out, every handed-out lock stays. */
  lemma EvictedRegistered(s: System, i: nat)
    requires ValidPool(s.pool) && Registered(s) && Enabled(s, Pop(i)) && !Evicted(s, i).strayed
    ensures Registered(Evicted(s, i))
  {
    var t := Evicted(s, i);
    assert s.pool.order[0] in s.pool.locks;
    forall j | 0 <= j < |t.calls| && UsesLock(t.calls[j].pc)
      ensures t.calls[j].key in t.pool.locks && t.pool.locks[t.calls[j].key] == t.calls[j].pc.lock
    {
      assert UsesLock(s.calls[j].pc) && s.calls[j].pc.lock == t.calls[j].pc.lock;
    }
  }

  lemma RegisteredMove(s: System, s': System, i: nat, pc: Pc)
    requires Registered(s) && i < |s.calls| && s'.calls == At(s, i, pc) && s'.pool.locks == s.pool.locks
    requires UsesLock(pc) ==> UsesLock(s.calls[i].pc) && pc.lock == s.calls[i].pc.lock
    ensures Registered(s')
  {
  }

  lemma RegisteredStep(c: Config, s: System, m: Move)
    requires ValidPool(s.pool) && Registered(s) && Enabled(s, m) && !Apply(c, s, m).strayed
    ensures Registered(Apply(c, s, m))
  {
    var s' := Apply(c, s, m);
    if m.GetLock? {
      HandedRegistered(s, m.i);
    } else if m.Pop? {
      EvictedRegistered(s, m.i);
    } else if !m.Arrive? && !m.Lose? {
      MoveShape(c, s, m);
      RegisteredMove(s, s', m.i, s'.calls[m.i].pc);
    }
  }

  /** The guard has one owner, which is inside `_get_keyed_lock` and whose key is the newest. */
  ghost predicate Guarded(c: Config, s: System)
  {
    && (forall i | 0 <= i < |s.calls| && InGuard(s.calls[i].pc) :: s.guard == Some(i))
    && (s.guard.Some? ==> s.guard.value < |s.calls| && InGuard(s.calls[s.guard.value].pc) && Newest(s.pool, s.calls[s.guard.value].key))
    && (s.guard.Some? && s.calls[s.guard.value].pc.Popping? ==> |s.pool.order| > c.max)
  }

  predicate InGuard(pc: Pc)
  {
    pc.Trimming? || pc.Popping?
  }

  lemma GuardedStep(c: Config, s: System, m: Move)
    requires c.max >= 1 && ValidPool(s.pool) && Guarded(c, s) && Enabled(s, m)
    ensures Guarded(c, Apply(c, s, m)) && ValidPool(Apply(c, s, m).pool)
  {
    if m.GetLock? {
      GuardedHanded(c, s, m.i);
    } else if m.Examine? {
      GuardedExamine(c, s, m.i);
    } else if m.Pop? {
      GuardedPop(c, s, m.i);
    } else if !m.Arrive? && !m.Lose? {
      MoveShape(c, s, m);
      GuardedMove(c, s, Apply(c, s, m), m.i, Apply(c, s, m).calls[m.i].pc);
    }
  }

  lemma GuardedHanded(c: Config, s: System, i: nat)
    requires ValidPool(s.pool) && Guarded(c, s) && Enabled(s, GetLock(i))
    ensures Guarded(c, Handed(s, i)) && ValidPool(Handed(s, i).pool)
  {
    TouchKeepsValid(s.pool, s.calls[i].key);
  }

  lemma GuardedMove(c: Config, s: System, s': System, i: nat, pc: Pc)
    requires Guarded(c, s) && i < |s.calls| && s'.calls == At(s, i, pc) && s'.pool == s.pool && s'.guard == s.guard
    requires !InGuard(pc) && !InGuard(s.calls[i].pc)
    ensures Guarded(c, s')
  {
  }

  lemma GuardedExamine(c: Config, s: System, i: nat)
    requires ValidPool(s.pool) && Guarded(c, s) && Enabled(s, Examine(i))
    ensures Guarded(c, Examined(c, s, i)) && ValidPool(Examined(c, s, i).pool)
  {
    if |s.pool.order| > c.max {
      RotatePool(s.pool);
    }
  }

  lemma GuardedPop(c: Config, s: System, i: nat)
    requires c.max >= 1 && ValidPool(s.pool) && Guarded(c, s) && Enabled(s, Pop(i))
    ensures Guarded(c, Evicted(s, i)) && ValidPool(Evicted(s, i).pool)
  {
    PopValid(s.pool);
    assert Popped(s.pool).order[|s.pool.order| - 2] == s.pool.order[|s.pool.order| - 1];
  }

  /** A lock that is in use when it is tested stays and ends the loop; and whatever else
      happens, no lock goes but the oldest, and that one only when the guard's owner pops it. */
  lemma HeldLockStays(c: Config, s: System, m: Move, key: Key)
    requires ValidPool(s.pool) && Enabled(s, m) && key in s.pool.locks
    ensures !(m.Pop? && key == s.pool.order[0]) ==>
              key in Apply(c, s, m).pool.locks && Apply(c, s, m).pool.locks[key] == s.pool.locks[key]
    ensures m.Examine? && |s.pool.order| > c.max && key == s.pool.order[0] && s.pool.locks[key] in s.owner ==>
              Apply(c, s, m).guard == None && Newest(Apply(c, s, m).pool, key)
    ensures m.Examine? && |s.pool.order| > c.max && key == s.pool.order[0] && s.pool.locks[key] !in s.owner ==>
              Apply(c, s, m).calls[m.i].pc.Popping?
  {
    if !m.GetLock? && !m.Examine? && !m.Pop? {
      assert Apply(c, s, m).pool == s.pool;
    }
    if m.GetLock? {
      TouchKeepsValid(s.pool, s.calls[m.i].key);
    }
  }

  lemma {:induction false} RunsSplit(c: Config, s: System, moves: seq<Move>, end: System) returns (u: System)
    requires Runs(c, s, moves, end) && moves != []
    ensures Runs(c, s, Init(moves), u) && Enabled(u, Last(moves)) && end == Apply(c, u, Last(moves))
    decreases |moves|
  {
    if |moves| == 1 {
      u := s;
    } else {
      u := RunsSplit(c, Apply(c, s, moves[0]), moves[1..], end);
      assert Init(moves)[1..] == Init(moves[1..]);
    }
  }

  /** The oldest lock of `s` was the oldest, and free, in the state `u` after `k` moves, when
      call `i` tested it; if it is held in `s`, its holder has acquired it since. */
  ghost predicate TestedFree(c: Config, moves: seq<Move>, s: System, i: nat, k: nat, u: System)
  {
    && k < |moves| && moves[k] == Examine(i) && Runs(c, Initial(), moves[..k], u)
    && u.pool == s.pool && !OldestInUse(u.pool, u.owner.Keys)
    && (OldestInUse(s.pool, s.owner.Keys) ==> Acquire(s.owner[s.pool.locks[s.pool.order[0]]]) in moves[k + 1..])
  }

  lemma TestedFreeStill(c: Config, moves: seq<Move>, s: System, m: Move, i: nat, k: nat, u: System)
    requires Guarded(c, s) && Enabled(s, m) && Enabled(Apply(c, s, m), Pop(i)) && m != Examine(i)
    requires TestedFree(c, moves, s, i, k, u)
    ensures TestedFree(c, moves + [m], Apply(c, s, m), i, k, u)
  {
    PoppingSince(c, s, m, i);
    assert (moves + [m])[..k] == moves[..k];
    assert (moves + [m])[k + 1..] == moves[k + 1..] + [m];
  }

  lemma {:induction false} TestBeforePop(c: Config, moves: seq<Move>, s: System, i: nat)
    requires c.max >= 1 && Runs(c, Initial(), moves, s) && Enabled(s, Pop(i))
    ensures exists k, u :: TestedFree(c, moves, s, i, k, u)
    decreases |moves|
  {
    var before := RunsSplit(c, Initial(), moves, s);
    InvRuns(c, Initial(), Init(moves), before);
    var m := Last(moves);
    assert moves == Init(moves) + [m];
    if m == Examine(i) {
      assert moves[..|moves| - 1] == Init(moves);
      assert TestedFree(c, moves, s, i, |moves| - 1, before);
    } else {
      PoppingSince(c, before, m, i);
      TestBeforePop(c, Init(moves), before, i);
      var k, u :| TestedFree(c, Init(moves), before, i, k, u);
      TestedFreeStill(c, Init(moves), before, m, i, k, u);
    }
  }

  /** In every run, a lock that is about to be popped was found free by the test before it;
      a held lock that is popped has been acquired after that test. */
  lemma EvictedAfterTest(c: Config, moves: seq<Move>, s: System, i: nat) returns (k: nat, u: System)
    requires c.max >= 1 && Runs(c, Initial(), moves, s) && Enabled(s, Pop(i))
    ensures TestedFree(c, moves, s, i, k, u)
  {
    TestBeforePop(c, moves, s, i);
    k, u :| TestedFree(c, moves, s, i, k, u);
  }

  /** While a call is about to pop, only acquiring and releasing change what it is about to
      pop. */
  lemma PoppingSince(c: Config, s: System, m: Move, i: nat)
    requires Guarded(c, s) && Enabled(s, m) && Enabled(Apply(c, s, m), Pop(i)) && m != Examine(i)
    ensures Enabled(s, Pop(i)) && Apply(c, s, m).pool == s.pool
    ensures forall l | l in Apply(c, s, m).owner ::
              (l in s.owner && s.owner[l] == Apply(c, s, m).owner[l]) || m == Acquire(Apply(c, s, m).owner[l])
  {
    if !m.Arrive? && !m.Lose? {
      MoveShape(c, s, m);
    }
  }

  // ---------------------------------------------------------------------------
  // The steps of one hand-out, whatever happens between them, are `GetKeyedLock`
  // ---------------------------------------------------------------------------

  /** Call `i` keeps the guard during the moves, and gives it back with the last one. */
  ghost predicate Guarding(c: Config, s: System, moves: seq<Move>, i: nat)
    decreases |moves|
  {
    if moves == [] then s.guard == None
    else Enabled(s, moves[0]) && s.guard == Some(i) && Guarding(c, Apply(c, s, moves[0]), moves[1..], i)
  }

  lemma {:induction false} TrimLater(p: Pool, max: nat, locked: nat -> set<LockId>, later: nat -> set<LockId>, k: nat)
    requires forall j: nat :: later(j + 1) == locked(j)
    ensures Trim(p, max, later, k + 1) == Trim(p, max, locked, k)
    decreases |p.order|
  {
    assert later(k + 1) == locked(k);
    if |p.order| > max && !OldestInUse(p, locked(k)) {
      TrimLater(Popped(p), max, locked, later, k + 1);
    }
  }

  /** What is left to trim. */
  function Untrimmed(s: System, i: nat): Pool
    requires i < |s.calls|
  {
    if s.calls[i].pc.Popping? && s.pool.order != [] then Popped(s.pool) else s.pool
  }

  /** Moves of other calls leave the trimming alone. */
  lemma TrimmingUndisturbed(c: Config, s: System, m: Move, i: nat)
    requires Guarded(c, s) && s.guard == Some(i) && Enabled(s, m) && m != Examine(i) && m != Pop(i)
    ensures var s' := Apply(c, s, m); s'.guard == Some(i) && s'.pool == s.pool && i < |s'.calls| && s'.calls[i] == s.calls[i]
  {
    if !m.Arrive? && !m.Lose? {
      MoveShape(c, s, m);
    }
  }

  /** The test of the oldest lock is the loop's next test. */
  lemma ExamineTrims(c: Config, s: System, i: nat, p: Pool, rest: nat -> set<LockId>) returns (locked: nat -> set<LockId>)
    requires Enabled(s, Examine(i))
    requires var s' := Examined(c, s, i);
             p == if s'.calls[i].pc.Popping? then Trim(Untrimmed(s', i), c.max, rest, 0) else s'.pool
    ensures p == Trim(s.pool, c.max, locked, 0)
  {
    locked := (j: nat) => if j == 0 then s.owner.Keys else rest(j - 1);
    if |s.pool.order| > c.max && !OldestInUse(s.pool, s.owner.Keys) {
      TrimLater(Popped(s.pool), c.max, rest, locked, 0);
    }
  }

  lemma {:induction false} StepsTrim(c: Config, s: System, moves: seq<Move>, end: System, i: nat) returns (locked: nat -> set<LockId>)
    requires c.max >= 1 && ValidPool(s.pool) && Guarded(c, s) && s.guard == Some(i)
    requires Runs(c, s, moves, end) && Guarding(c, s, moves, i)
    ensures end.pool == Trim(Untrimmed(s, i), c.max, locked, 0)
    decreases |moves|
  {
    var m := moves[0];
    var s' := Apply(c, s, m);
    GuardedStep(c, s, m);
    if m == Examine(i) {
      if s'.guard == None {
        GuardGivenBack(c, s', moves[1..], end, i);
        locked := ExamineTrims(c, s, i, end.pool, _ => {});
      } else {
        locked := StepsTrim(c, s', moves[1..], end, i);
        locked := ExamineTrims(c, s, i, end.pool, locked);
      }
    } else {
      if m != Pop(i) {
        TrimmingUndisturbed(c, s, m, i);
      }
      locked := StepsTrim(c, s', moves[1..], end, i);
    }
  }

  lemma GuardGivenBack(c: Config, s: System, moves: seq<Move>, end: System, i: nat)
    requires s.guard == None && Runs(c, s, moves, end) && Guarding(c, s, moves, i)
    ensures end == s
  {
  }

  /** However its steps are interleaved with those of others, a call of `_get_keyed_lock`
      leaves the pool as the method does, for some locks in use at its tests. */
  lemma HandOutIsGetKeyedLock(c: Config, before: seq<Move>, s: System, i: nat, moves: seq<Move>, end: System)
      returns (locked: nat -> set<LockId>)
    requires c.max >= 1 && Runs(c, Initial(), before, s) && Enabled(s, GetLock(i))
    requires Runs(c, Handed(s, i), moves, end) && Guarding(c, Handed(s, i), moves, i)
    ensures end.pool == Trim(Touch(s.pool, s.calls[i].key), c.max, locked, 0)
  {
    InvRuns(c, Initial(), before, s);
    GuardedStep(c, s, GetLock(i));
    locked := StepsTrim(c, Handed(s, i), moves, end, i);
  }

  /** Two calls past the lock of the same key are the same call. */
  lemma OnePerKey(s: System, i: nat, j: nat)
    requires OwnersMatch(s) && Registered(s) && i < |s.calls| && j < |s.calls|
    requires Critical(s.calls[i].pc) && Critical(s.calls[j].pc) && s.calls[i].key == s.calls[j].key
    ensures i == j
  {
  }

  // ---------------------------------------------------------------------------
  // Fetches and values
  // ---------------------------------------------------------------------------

  /** A counted fetch of the watched key is under way. */
  ghost predicate InFlight(c: Config, s: System)
  {
    exists i :: 0 <= i < |s.calls| && FetchesFor(c, s.calls[i])
  }

  predicate FetchesFor(c: Config, call: Call)
  {
    call.key == c.watch && !call.skip && (call.pc.Fetching? || call.pc.Storing?)
  }

  /** Every counted fetch but one was answered by a waste. */
  ghost predicate Frugal(c: Config, s: System)
  {
    s.started <= s.wasted + if Hit(c, s.cache, c.watch) || InFlight(c, s) then 1 else 0
  }

  lemma InFlightKept(c: Config, s: System, s': System, i: nat, pc: Pc)
    requires i < |s.calls| && s'.calls == At(s, i, pc) && InFlight(c, s)
    requires FetchesFor(c, s.calls[i]) ==> FetchesFor(c, s.calls[i].(pc := pc))
    ensures InFlight(c, s')
  {
    var k :| 0 <= k < |s.calls| && FetchesFor(c, s.calls[k]);
    assert FetchesFor(c, s'.calls[k]);
  }

  lemma FrugalRecheck(c: Config, s: System, i: nat)
    requires Frugal(c, s) && OwnersMatch(s) && Registered(s) && Enabled(s, Recheck(i))
    ensures Frugal(c, Rechecked(c, s, i))
  {
    var s' := Rechecked(c, s, i);
    if InFlight(c, s) {
      InFlightKept(c, s, s', i, s'.calls[i].pc);
      var k :| 0 <= k < |s.calls| && FetchesFor(c, s.calls[k]);
      if s.calls[i].key == c.watch {
        OnePerKey(s, i, k);
      }
    }
    if FetchesFor(c, s'.calls[i]) {
      assert InFlight(c, s');
    }
  }

  lemma FrugalStep(c: Config, s: System, m: Move)
    requires Frugal(c, s) && OwnersMatch(s) && Registered(s) && Enabled(s, m)
    ensures Frugal(c, Apply(c, s, m))
  {
    var s' := Apply(c, s, m);
    match m
    case Arrive(key, skip) =>
      if InFlight(c, s) {
        var k :| 0 <= k < |s.calls| && FetchesFor(c, s.calls[k]);
        assert FetchesFor(c, s'.calls[k]);
      }
    case Recheck(i) => FrugalRecheck(c, s, i);
    case Fetched(i, reply) => FrugalFetched(c, s, i, reply);
    case Store(i) => FrugalStore(c, s, i);
    case Lose(_) => FrugalLose(c, s, m.key);
    case _ =>
      if InFlight(c, s) {
        InFlightKept(c, s, s', m.i, s'.calls[m.i].pc);
      }
  }

  lemma FrugalFetched(c: Config, s: System, i: nat, reply: Reply)
    requires Frugal(c, s) && Enabled(s, Fetched(i, reply))
    ensures Frugal(c, Answered(c, s, i, reply))
  {
    var s' := Answered(c, s, i, reply);
    if InFlight(c, s) && (reply.Returned? || s.calls[i].key != c.watch) {
      InFlightKept(c, s, s', i, s'.calls[i].pc);
    }
  }

  lemma FrugalStore(c: Config, s: System, i: nat)
    requires Frugal(c, s) && Enabled(s, Store(i))
    ensures Frugal(c, Stored(c, s, i))
  {
    var s' := Stored(c, s, i);
    if InFlight(c, s) && s.calls[i].key != c.watch {
      InFlightKept(c, s, s', i, s'.calls[i].pc);
    }
  }

  lemma FrugalLose(c: Config, s: System, key: Key)
    requires Frugal(c, s) && Enabled(s, Lose(key))
    ensures Frugal(c, Apply(c, s, Lose(key)))
  {
    var s' := Apply(c, s, Lose(key));
    assert InFlight(c, s) ==> InFlight(c, s');
  }

  /** Whatever a call returns was produced by a fetcher of its own key. */
  ghost predicate Genuine(s: System)
  {
    && (forall k | k in s.cache :: (k, s.cache[k]) in s.produced)
    && (forall i | 0 <= i < |s.calls| && s.calls[i].pc.Storing? :: (s.calls[i].key, s.calls[i].pc.answer) in s.produced)
    && (forall i | 0 <= i < |s.calls| && Replied(s.calls[i].pc) :: (s.calls[i].key, s.calls[i].pc.reply.answer) in s.produced)
  }

  predicate Replied(pc: Pc)
  {
    (pc.Leaving? || pc.Finished?) && pc.reply.Returned?
  }

  lemma GenuineMove(s: System, s': System, i: nat, pc: Pc)
    requires Genuine(s) && i < |s.calls| && s'.calls == At(s, i, pc) && s.produced <= s'.produced && s'.cache == s.cache
    requires pc.Storing? ==> (s.calls[i].key, pc.answer) in s'.produced
    requires Replied(pc) ==> (s.calls[i].key, pc.reply.answer) in s'.produced
    ensures Genuine(s')
  {
  }

  lemma GenuineStore(c: Config, s: System, i: nat)
    requires Genuine(s) && Enabled(s, Store(i))
    ensures Genuine(Stored(c, s, i))
  {
  }

  lemma GenuineStep(c: Config, s: System, m: Move)
    requires Genuine(s) && Enabled(s, m)
    ensures Genuine(Apply(c, s, m))
  {
    var s' := Apply(c, s, m);
    match m
    case Arrive(_, _) =>
    case Lose(_) =>
    case Store(i) => GenuineStore(c, s, i);
    case _ =>
      MoveShape(c, s, m);
      GenuineMove(s, s', m.i, s'.calls[m.i].pc);
  }

  ghost predicate Inv(c: Config, s: System)
  {
    ValidPool(s.pool) && Guarded(c, s) && OwnersMatch(s) && Genuine(s) && (!s.strayed ==> Registered(s) && Frugal(c, s))
  }

  lemma InvStep(c: Config, s: System, m: Move)
    requires c.max >= 1 && Inv(c, s) && Enabled(s, m)
    ensures Inv(c, Apply(c, s, m))
  {
    OwnersMatchStep(c, s, m);
    GenuineStep(c, s, m);
    GuardedStep(c, s, m);
    if !Apply(c, s, m).strayed {
      RegisteredStep(c, s, m);
      FrugalStep(c, s, m);
    }
  }

  lemma {:induction false} InvRuns(c: Config, s: System, moves: seq<Move>, end: System)
    requires c.max >= 1 && Inv(c, s) && Runs(c, s, moves, end)
    ensures Inv(c, end)
    decreases |moves|
  {
    if moves != [] {
      InvStep(c, s, moves[0]);
      InvRuns(c, Apply(c, s, moves[0]), moves[1..], end);
    }
  }

  /** A miss makes a call of the watched key fetch. */
  predicate Begins(c: Config, s: System, m: Move)
    requires Enabled(s, m)
  {
    m.Recheck? && s.calls[m.i].key == c.watch && !s.calls[m.i].skip && Apply(c, s, m).calls[m.i].pc.Fetching?
  }

  /** The move takes the watched key's entry away, or leaves a fetch of it without one that
      the cache would return. */
  predicate Spoils(c: Config, s: System, m: Move)
    requires Enabled(s, m)
  {
    match m
    case Lose(key) => key == c.watch
    case Fetched(i, reply) => s.calls[i].key == c.watch && reply == Raised
    case Store(i) => s.calls[i].key == c.watch && s.calls[i].pc.answer == Nothing && c.noneIsMiss
    case _ => false
  }

  /** How many fetches of the watched key misses begin in a run. */
  ghost function Begun(c: Config, s: System, moves: seq<Move>): nat
    decreases |moves|
  {
    if moves == [] || !Enabled(s, moves[0]) then 0
    else (if Begins(c, s, moves[0]) then 1 else 0) + Begun(c, Apply(c, s, moves[0]), moves[1..])
  }

  ghost function Spoilt(c: Config, s: System, moves: seq<Move>): nat
    decreases |moves|
  {
    if moves == [] || !Enabled(s, moves[0]) then 0
    else (if Spoils(c, s, moves[0]) then 1 else 0) + Spoilt(c, Apply(c, s, moves[0]), moves[1..])
  }

  lemma LedgerStep(c: Config, s: System, m: Move)
    requires Enabled(s, m)
    ensures Apply(c, s, m).started == s.started + (if Begins(c, s, m) then 1 else 0)
    ensures Apply(c, s, m).wasted == s.wasted + (if Spoils(c, s, m) then 1 else 0)
  {
  }

  lemma {:induction false} LedgersAreTrue(c: Config, s: System, moves: seq<Move>, end: System)
    requires Runs(c, s, moves, end)
    ensures end.started == s.started + Begun(c, s, moves) && end.wasted == s.wasted + Spoilt(c, s, moves)
    decreases |moves|
  {
    if moves != [] {
      LedgerStep(c, s, moves[0]);
      LedgersAreTrue(c, Apply(c, s, moves[0]), moves[1..], end);
    }
  }

  /** Some call of the key has fetched the answer. */
  ghost predicate FetchedBy(moves: seq<Move>, calls: seq<Call>, key: Key, a: Answer)
  {
    exists j: nat :: j < |calls| && calls[j].key == key && Fetched(j, Returned(a)) in moves
  }

  lemma CallsKeepKeys(c: Config, s: System, m: Move)
    requires Enabled(s, m)
    ensures |s.calls| <= |Apply(c, s, m).calls| && forall j | 0 <= j < |s.calls| :: Apply(c, s, m).calls[j].key == s.calls[j].key
  {
    if !m.Arrive? && !m.Lose? {
      MoveShape(c, s, m);
    }
  }

  lemma ProducedStep(c: Config, s: System, m: Move, key: Key, a: Answer)
    requires Enabled(s, m) && (key, a) in Apply(c, s, m).produced
    ensures (key, a) in s.produced || (m.Fetched? && s.calls[m.i].key == key && m.reply == Returned(a))
  {
  }

  lemma {:induction false} ProducedIsFetched(c: Config, moves: seq<Move>, s: System, key: Key, a: Answer)
    requires Runs(c, Initial(), moves, s) && (key, a) in s.produced
    ensures FetchedBy(moves, s.calls, key, a)
    decreases |moves|
  {
    if moves != [] {
      var u := RunsSplit(c, Initial(), moves, s);
      var m := Last(moves);
      assert moves == Init(moves) + [m];
      CallsKeepKeys(c, u, m);
      ProducedStep(c, u, m, key, a);
      if (key, a) in u.produced {
        ProducedIsFetched(c, Init(moves), u, key, a);
        var j: nat :| j < |u.calls| && u.calls[j].key == key && Fetched(j, Returned(a)) in Init(moves);
        assert s.calls[j].key == key && Fetched(j, Returned(a)) in moves;
      } else {
        assert s.calls[m.i].key == key && m in moves;
      }
    }
  }

  /** In every interleaving: whoever returns an answer returns one that a call of its own
      key has fetched; and unless a lock has strayed, at most one call per key is past the
      lock, and misses of a key begin at most one fetch more than its entry is taken away or
      spoilt. */
  lemma SingleFlightHolds(c: Config, moves: seq<Move>, s: System)
    requires c.max >= 1 && Runs(c, Initial(), moves, s)
    ensures forall i | 0 <= i < |s.calls| && s.calls[i].pc.Finished? && s.calls[i].pc.reply.Returned? ::
              FetchedBy(moves, s.calls, s.calls[i].key, s.calls[i].pc.reply.answer)
    ensures !s.strayed ==> forall i, j | 0 <= i < |s.calls| && 0 <= j < |s.calls| && Critical(s.calls[i].pc)
                                         && Critical(s.calls[j].pc) && s.calls[i].key == s.calls[j].key :: i == j
    ensures !s.strayed ==> Begun(c, Initial(), moves) <= Spoilt(c, Initial(), moves) + 1
  {
    InvRuns(c, Initial(), moves, s);
    LedgersAreTrue(c, Initial(), moves, s);
    forall i | 0 <= i < |s.calls| && s.calls[i].pc.Finished? && s.calls[i].pc.reply.Returned?
      ensures FetchedBy(moves, s.calls, s.calls[i].key, s.calls[i].pc.reply.answer)
    {
      assert Replied(s.calls[i].pc);
      ProducedIsFetched(c, moves, s, s.calls[i].key, s.calls[i].pc.reply.answer);
    }
  }

  // ---------------------------------------------------------------------------
  // An entry that survives answers the waiters
  // ---------------------------------------------------------------------------

  /** Nothing on the way takes the entry of `key` away or replaces it. */
  ghost predicate Survives(c: Config, s: System, moves: seq<Move>, key: Key)
    decreases |moves|
  {
    moves == [] ||
    (Enabled(s, moves[0]) && moves[0] != Lose(key) && (moves[0].Store? ==> s.calls[moves[0].i].key != key)
     && Survives(c, Apply(c, s, moves[0]), moves[1..], key))
  }

  lemma {:induction false} EntrySurvives(c: Config, s: System, moves: seq<Move>, end: System, key: Key)
    requires Runs(c, s, moves, end) && Survives(c, s, moves, key) && key in s.cache
    ensures key in end.cache && end.cache[key] == s.cache[key]
    decreases |moves|
  {
    if moves != [] {
      EntrySurvives(c, Apply(c, s, moves[0]), moves[1..], end, key);
    }
  }

  /** Once the leader has stored a usable answer, a call of the same key that acquires the
      lock while the entry survives returns that answer and fetches nothing. */
  lemma WaiterIsAnswered(c: Config, s: System, leader: nat, moves: seq<Move>, end: System, i: nat)
    requires Enabled(s, Store(leader)) && (s.calls[leader].pc.answer != Nothing || !c.noneIsMiss)
    requires Runs(c, Stored(c, s, leader), moves, end) && Survives(c, Stored(c, s, leader), moves, s.calls[leader].key)
    requires Enabled(end, Recheck(i)) && end.calls[i].key == s.calls[leader].key && !end.calls[i].skip
    ensures var after := Rechecked(c, end, i);
            && after.calls[i].pc == Leaving(end.calls[i].pc.lock, Returned(s.calls[leader].pc.answer))
            && after.started == end.started
  {
    EntrySurvives(c, Stored(c, s, leader), moves, end, s.calls[leader].key);
  }

  /** A call is answered at once exactly when it does not skip the cache, its key has an
      entry, and that is an answer or the cache is the one that keeps empty answers; else it
      goes on to the lock, and after it the same test decides between answer and fetch. */
  lemma LookIsExact(c: Config, s: System, i: nat)
    requires i < |s.calls|
    ensures var call := s.calls[i];
            var found := !call.skip && call.key in s.cache && (s.cache[call.key].Something? || !c.noneIsMiss);
            && (Enabled(s, Look(i)) ==>
                  Apply(c, s, Look(i)).calls[i].pc == (if found then Finished(Returned(s.cache[call.key])) else Looking))
            && (Enabled(s, Recheck(i)) ==>
                  Apply(c, s, Recheck(i)).calls[i].pc == (if found then Leaving(call.pc.lock, Returned(s.cache[call.key])) else Fetching(call.pc.lock)))
  {
  }

  // ---------------------------------------------------------------------------
  // When locks stray
  // ---------------------------------------------------------------------------

  ghost function Requested(calls: seq<Call>): set<Key>
  {
    set i | 0 <= i < |calls| :: calls[i].key
  }

  lemma RequestsKept(c: Config, s: System, m: Move)
    requires Enabled(s, m)
    ensures Requested(s.calls) <= Requested(Apply(c, s, m).calls)
    ensures !m.Arrive? ==> Requested(Apply(c, s, m).calls) == Requested(s.calls)
  {
    var s' := Apply(c, s, m);
    forall k | k in Requested(s.calls) ensures k in Requested(s'.calls) {
      var i :| 0 <= i < |s.calls| && s.calls[i].key == k;
      assert s'.calls[i].key == k;
    }
  }

  /** Nothing has strayed and only requested keys have locks. */
  ghost predicate Roomy(c: Config, s: System)
  {
    Inv(c, s) && s.pool.locks.Keys <= Requested(s.calls) && !s.strayed
  }

  /** A pool that has room for every requested key evicts nothing. */
  lemma RoomyPool(c: Config, s: System, m: Move)
    requires ValidPool(s.pool) && Guarded(c, s) && s.pool.locks.Keys <= Requested(s.calls) && |Requested(s.calls)| <= c.max
    requires Enabled(s, m)
    ensures Apply(c, s, m).pool.locks.Keys <= Requested(s.calls) && Apply(c, s, m).strayed == s.strayed
  {
    ListLength(s.pool.order, s.pool.locks.Keys);
    SubsetSize(s.pool.locks.Keys, Requested(s.calls));
    if m.GetLock? {
      assert s.calls[m.i].key in Requested(s.calls);
    } else {
      assert !m.Pop? && Apply(c, s, m).pool.locks == s.pool.locks;
    }
  }

  lemma RoomyStep(c: Config, s: System, m: Move)
    requires c.max >= 1 && Roomy(c, s) && Enabled(s, m) && |Requested(s.calls)| <= c.max
    ensures Roomy(c, Apply(c, s, m))
  {
    InvStep(c, s, m);
    RequestsKept(c, s, m);
    RoomyPool(c, s, m);
  }

  /** With at least as much room in the pool as keys ever requested, no lock strays. */
  lemma {:induction false} NothingStrays(c: Config, s: System, moves: seq<Move>, end: System)
    requires c.max >= 1 && Roomy(c, s) && Runs(c, s, moves, end) && |Requested(end.calls)| <= c.max
    ensures Roomy(c, end)
    decreases |moves|
  {
    if moves != [] {
      RequestsGrow(c, s, moves, end);
      SubsetSize(Requested(s.calls), Requested(end.calls));
      RoomyStep(c, s, moves[0]);
      NothingStrays(c, Apply(c, s, moves[0]), moves[1..], end);
    }
  }

  lemma {:induction false} RequestsGrow(c: Config, s: System, moves: seq<Move>, end: System)
    requires Runs(c, s, moves, end)
    ensures Requested(s.calls) <= Requested(end.calls)
    decreases |moves|
  {
    if moves != [] {
      RequestsKept(c, s, moves[0]);
      RequestsGrow(c, Apply(c, s, moves[0]), moves[1..], end);
    }
  }

  /** Two calls past the lock of one key are the same call. */
  ghost predicate FliesSingly(s: System)
  {
    forall i, j | 0 <= i < |s.calls| && 0 <= j < |s.calls| && Critical(s.calls[i].pc) && Critical(s.calls[j].pc)
                  && s.calls[i].key == s.calls[j].key :: i == j
  }

  /** So single flight holds for every run over no more keys than the pool has room for. */
  lemma FewKeysFlySingly(c: Config, moves: seq<Move>, s: System)
    requires c.max >= 1 && Runs(c, Initial(), moves, s) && |Requested(s.calls)| <= c.max
    ensures s.started <= s.wasted + 1 && FliesSingly(s)
  {
    NothingStrays(c, Initial(), moves, s);
    SingleFlightHolds(c, moves, s);
  }

  /** The states that some interleaving reaches. */
  ghost predicate Reachable(c: Config, s: System)
  {
    exists moves :: Runs(c, Initial(), moves, s)
  }

  lemma {:induction false} RunsExtend(c: Config, s: System, moves: seq<Move>, end: System, m: Move)
    requires Runs(c, s, moves, end) && Enabled(end, m)
    ensures Runs(c, s, moves + [m], Apply(c, end, m))
    decreases |moves|
  {
    if moves == [] {
      assert Runs(c, Apply(c, s, m), [], Apply(c, end, m));
      assert ([m])[1..] == [];
    } else {
      RunsExtend(c, Apply(c, s, moves[0]), moves[1..], end, m);
      assert (moves + [m])[1..] == moves[1..] + [m];
    }
  }

  lemma Extend(c: Config, s: System, m: Move) returns (s': System)
    requires Reachable(c, s) && Enabled(s, m)
    ensures Reachable(c, s') && s' == Apply(c, s, m)
  {
    var moves :| Runs(c, Initial(), moves, s);
    RunsExtend(c, Initial(), moves, s, m);
    s' := Apply(c, s, m);
  }

  function Numbered(n: nat): map<Key, LockId>
  {
    if n == 0 then map[] else Numbered(n - 1)[Name(n - 1) := n - 1]
  }

  function Waiters(n: nat): (calls: seq<Call>)
    ensures |calls| == n
  {
    if n == 0 then [] else Waiters(n - 1) + [Call(Name(n - 1), false, Waiting(n - 1))]
  }

  lemma {:induction false} FamilyFacts(n: nat)
    ensures forall i | 0 <= i < n :: Names(n)[i] == Name(i)
    ensures |Numbered(n)| == n && forall k | k in Numbered(n) :: |k| < n
    ensures forall i | 0 <= i < n :: Name(i) in Numbered(n) && Numbered(n)[Name(i)] == i
    ensures forall i | 0 <= i < n :: Waiters(n)[i] == Call(Name(i), false, Waiting(i))
  {
    NamesDiffer(n);
    if n > 0 {
      FamilyFacts(n - 1);
      assert |Name(n - 1)| == n - 1 && Name(n - 1) !in Numbered(n - 1);
      assert |Numbered(n)| == n;
      forall i | 0 <= i < n ensures Name(i) in Numbered(n) && Numbered(n)[Name(i)] == i {
        assert |Name(i)| == i;
      }
    }
  }

  /** Each of `n` keys has been asked for, and nobody has taken a lock yet. */
  function Asked(n: nat): System
  {
    System(Pool(Names(n), Numbered(n), n), None, map[], map[], Waiters(n), false, 0, 0, {})
  }

  /** And the next one has just been given its lock. */
  function Asking(n: nat): System
  {
    Asked(n).(pool := Pool(Names(n + 1), Numbered(n + 1), n + 1), guard := Some(n),
              calls := Waiters(n) + [Call(Name(n), false, Trimming(n))])
  }

  lemma AskingEnds(c: Config, n: nat)
    requires n + 1 <= c.max
    ensures Enabled(Asking(n), Examine(n)) && Apply(c, Asking(n), Examine(n)) == Asked(n + 1)
  {
    FamilyFacts(n);
    FamilyFacts(n + 1);
    assert At(Asking(n), n, Waiting(n)) == Waiters(n + 1);
  }

  lemma {:induction false} AskedIsReached(c: Config, n: nat)
    requires n <= c.max
    ensures Reachable(c, Asked(n))
  {
    if n == 0 {
      assert Runs(c, Initial(), [], Asked(0));
    } else {
      AskedIsReached(c, n - 1);
      AskingIsReached(c, n - 1);
      AskingEnds(c, n - 1);
      var s := Extend(c, Asking(n - 1), Examine(n - 1));
    }
  }

  lemma AskingIsReached(c: Config, n: nat)
    requires Reachable(c, Asked(n))
    ensures Reachable(c, Asking(n))
  {
    FamilyFacts(n);
    assert |Name(n)| == n && Name(n) !in Numbered(n);
    var s := Extend(c, Asked(n), Arrive(Name(n), false));
    s := Extend(c, s, Look(n));
    s := Extend(c, s, GetLock(n));
    assert s.calls == Waiters(n) + [Call(Name(n), false, Trimming(n))];
  }

  /** With as many keys asked for as the pool has room for, the request for one more finds
      the oldest lock free. */
  lemma OldestIsFree(c: Config) returns (s: System)
    requires c.max >= 1
    ensures Reachable(c, s) && s == Asking(c.max).(calls := Waiters(c.max) + [Call(Name(c.max), false, Popping(c.max))])
  {
    AskedIsReached(c, c.max);
    AskingIsReached(c, c.max);
    FamilyFacts(c.max + 1);
    s := Extend(c, Asking(c.max), Examine(c.max));
    assert s.calls == Waiters(c.max) + [Call(Name(c.max), false, Popping(c.max))];
  }

  lemma PoolIsFull(c: Config, s: System)
    requires s.pool == Pool(Names(c.max + 1), Numbered(c.max + 1), c.max + 1)
    ensures |s.pool.order| == c.max + 1 && s.pool.order[0] == Name(0) && Name(0) in s.pool.locks && s.pool.locks[Name(0)] == 0
  {
    FamilyFacts(c.max + 1);
  }

  lemma FirstTakesLock(c: Config) returns (s: System)
    requires c.max >= 1
    ensures Reachable(c, s)
    ensures s == Asking(c.max).(owner := map[0 := 0],
                                calls := Waiters(c.max)[0 := Call(Name(0), false, Locked(0))] + [Call(Name(c.max), false, Popping(c.max))])
  {
    FamilyFacts(c.max);
    s := OldestIsFree(c);
    s := Extend(c, s, Acquire(0));
  }

  /** Before it pops that lock, the call it was handed to takes it. */
  lemma HeldLockIsPopped(c: Config) returns (s: System)
    requires c.max >= 1
    ensures Reachable(c, s) && Enabled(s, Pop(c.max)) && OldestInUse(s.pool, s.owner.Keys)
    ensures s.pool == Pool(Names(c.max + 1), Numbered(c.max + 1), c.max + 1) && s.guard == Some(c.max)
    ensures s.owner == map[0 := 0] && s.cache == map[]
    ensures s.calls == Waiters(c.max)[0 := Call(Name(0), false, Locked(0))] + [Call(Name(c.max), false, Popping(c.max))]
  {
    s := FirstTakesLock(c);
    PoolIsFull(c, s);
  }

  /** The pool is full of other keys, and the first key's lock is held but not registered. */
  ghost predicate FirstLockLost(c: Config, s: System)
  {
    && c.max >= 1 && s.guard == None && s.owner == map[0 := 0] && s.cache == map[] && |s.calls| == c.max + 1
    && s.pool == Pool(Names(c.max + 1)[1..], Numbered(c.max + 1) - {Name(0)}, c.max + 1)
    && s.calls[0] == Call(Name(0), false, Locked(0))
    && forall i | 0 <= i < |s.calls| :: s.calls[i].key in Numbered(c.max + 1)
  }

  lemma NamesKnown(c: Config, s: System)
    requires c.max >= 1
    requires s.calls == Waiters(c.max)[0 := Call(Name(0), false, Locked(0))] + [Call(Name(c.max), false, Waiting(c.max))]
    ensures forall i | 0 <= i < |s.calls| :: s.calls[i].key in Numbered(c.max + 1)
  {
    FamilyFacts(c.max);
    FamilyFacts(c.max + 1);
    forall i | 0 <= i < |s.calls| ensures s.calls[i].key in Numbered(c.max + 1) {
      assert s.calls[i].key == Name(i);
    }
  }

  lemma FirstLockIsLost(c: Config) returns (s: System)
    requires c.max >= 1
    ensures Reachable(c, s) && FirstLockLost(c, s) && s.strayed
  {
    s := HeldLockIsPopped(c);
    FamilyFacts(c.max);
    PoolIsFull(c, s);
    assert UsesLock(s.calls[0].pc) && s.calls[0].pc.lock == s.pool.locks[s.pool.order[0]];
    s := Extend(c, s, Pop(c.max));
    s := Extend(c, s, Examine(c.max));
    NamesKnown(c, s);
  }

  /** The first key is asked for again, and given a second lock. */
  ghost predicate FirstAskedAgain(c: Config, s: System)
  {
    && c.max >= 1 && s.guard == Some(c.max + 1) && s.owner == map[0 := 0] && s.cache == map[] && |s.calls| == c.max + 2
    && |s.pool.order| == c.max + 1 && s.pool.order[0] in s.pool.locks && s.pool.locks[s.pool.order[0]] == 1
    && s.calls[0] == Call(Name(0), false, Locked(0)) && s.calls[c.max + 1] == Call(Name(0), false, Trimming(c.max + 1))
    && forall i | 0 <= i < |s.calls| :: s.calls[i].key in Numbered(c.max + 1)
  }

  lemma PoolAfterLoss(c: Config, s: System)
    requires FirstLockLost(c, s)
    ensures var p := Touch(s.pool, Name(0));
            |p.order| == c.max + 1 && p.order != [] && p.order[0] in p.locks && p.locks[p.order[0]] == 1
    ensures Name(0) !in s.pool.locks && Name(0) in Numbered(c.max + 1)
  {
    FamilyFacts(c.max + 1);
    assert Touch(s.pool, Name(0)).order[0] == Name(1);
    assert |Name(1)| == 1 && |Name(0)| == 0;
  }

  lemma FirstIsAskedAgain(c: Config) returns (s: System)
    requires c.max >= 1
    ensures Reachable(c, s) && FirstAskedAgain(c, s)
  {
    s := FirstLockIsLost(c);
    PoolAfterLoss(c, s);
    s := Extend(c, s, Arrive(Name(0), false));
    s := Extend(c, s, Look(c.max + 1));
    s := Extend(c, s, GetLock(c.max + 1));
  }

  /** The second lock is handed out while the first one is held. */
  lemma SecondLock(c: Config) returns (s: System)
    requires c.max >= 1
    ensures Reachable(c, s) && s.owner == map[0 := 0] && s.cache == map[] && |s.calls| == c.max + 2
    ensures s.calls[0] == Call(Name(0), false, Locked(0)) && s.calls[c.max + 1] == Call(Name(0), false, Waiting(c.max + 1))
    ensures forall i | 0 <= i < |s.calls| :: s.calls[i].key in Numbered(c.max + 1)
  {
    s := FirstIsAskedAgain(c);
    s := Extend(c, s, Examine(c.max + 1));
    s := Extend(c, s, Pop(c.max + 1));
    s := Extend(c, s, Examine(c.max + 1));
  }

  /** And both callers of one key fetch at once, in a run over one key more than the pool
      has room for. */
  lemma StrayLockFetchesTwice(c: Config) returns (s: System)
    requires c.max >= 1
    ensures Reachable(c, s) && |s.calls| == c.max + 2 && |Requested(s.calls)| <= c.max + 1
    ensures s.calls[0] == Call(Name(0), false, Fetching(0)) && s.calls[c.max + 1] == Call(Name(0), false, Fetching(c.max + 1))
  {
    s := SecondLock(c);
    s := Extend(c, s, Acquire(c.max + 1));
    s := Extend(c, s, Recheck(0));
    s := Extend(c, s, Recheck(c.max + 1));
    FamilyFacts(c.max + 1);
    SubsetSize(Requested(s.calls), Numbered(c.max + 1).Keys);
  }

  /** Every run over at most `n` keys has at most one call per key past its lock. */
  ghost predicate SinglyOver(c: Config, n: nat)
  {
    forall s | Reachable(c, s) && |Requested(s.calls)| <= n :: FliesSingly(s)
  }

  /** Single flight is guaranteed over `n` keys if and only if the pool has room for `n`
      locks. */
  lemma SinglyIffRoom(c: Config, n: nat)
    requires c.max >= 1
    ensures SinglyOver(c, n) <==> n <= c.max
  {
    if n <= c.max {
      forall s | Reachable(c, s) && |Requested(s.calls)| <= n ensures FliesSingly(s) {
        var moves :| Runs(c, Initial(), moves, s);
        FewKeysFlySingly(c, moves, s);
      }
    } else {
      var s := StrayLockFetchesTwice(c);
      assert Critical(s.calls[0].pc) && Critical(s.calls[c.max + 1].pc);
      assert !FliesSingly(s);
    }
  }

  // ---------------------------------------------------------------------------
  // Calls that skip the cache
  // ---------------------------------------------------------------------------

  /** The answer that a call has come by, as soon as it has one. */
  function AnswerOf(pc: Pc): Option<Answer>
  {
    match pc
    case Storing(_, a) => Some(a)
    case Leaving(_, Returned(a)) => Some(a)
    case Finished(Returned(a)) => Some(a)
    case _ => None
  }

  /** A call that skips the cache comes by its answer with its own fetch alone. */
  lemma AnswerComes(c: Config, s: System, m: Move, i: nat)
    requires Enabled(s, m) && i < |Apply(c, s, m).calls| && Apply(c, s, m).calls[i].skip
    ensures var answer := AnswerOf(Apply(c, s, m).calls[i].pc);
            answer.Some? ==> m == Fetched(i, Returned(answer.value)) || (i < |s.calls| && s.calls[i].skip && AnswerOf(s.calls[i].pc) == answer)
  {
    if !m.Arrive? && !m.Lose? {
      MoveShape(c, s, m);
    }
  }

  /** A call that skips the cache is never answered from it: in every run, what it returns
      is what its own fetch returned. */
  lemma {:induction false} SkippedIsFetched(c: Config, moves: seq<Move>, s: System, i: nat)
    requires Runs(c, Initial(), moves, s) && i < |s.calls| && s.calls[i].skip && AnswerOf(s.calls[i].pc).Some?
    ensures Fetched(i, Returned(AnswerOf(s.calls[i].pc).value)) in moves
    decreases |moves|
  {
    if moves != [] {
      var u := RunsSplit(c, Initial(), moves, s);
      AnswerComes(c, u, Last(moves), i);
      assert moves == Init(moves) + [Last(moves)];
      if Last(moves) != Fetched(i, Returned(AnswerOf(s.calls[i].pc).value)) {
        SkippedIsFetched(c, Init(moves), u, i);
      }
    }
  }
}
