/**
 Directed graphs as finite sets of edges: walks of a given length, reachability,
 acyclicity and distance. Every graph algorithm of the project is specified with
 these definitions.
 */
module Graphs {

  /** There is a walk of exactly `n` edges from `s` to `t`. */
  ghost predicate Steps<T(!new)>(E: set<(T, T)>, s: T, t: T, n: nat)
  {
    if n == 0 then s == t else exists m :: Steps(E, s, m, n - 1) && (m, t) in E
  }

  ghost predicate Reach<T(!new)>(E: set<(T, T)>, s: T, t: T)
  {
    exists n: nat :: Steps(E, s, t, n)
  }

  ghost predicate Acyclic<T(!new)>(E: set<(T, T)>)
  {
    forall s, n: nat :: Steps(E, s, s, n) ==> n == 0
  }

  /** `t` is at most `d` edges away from `s`. */
  ghost predicate Within<T(!new)>(E: set<(T, T)>, s: T, t: T, d: nat)
  {
    exists k: nat :: k <= d && Steps(E, s, t, k)
  }

  /** The shortest walk from `s` to `t` has `d` edges. */
  ghost predicate Distance<T(!new)>(E: set<(T, T)>, s: T, t: T, d: nat)
  {
    Steps(E, s, t, d) && forall k: nat :: k < d ==> !Steps(E, s, t, k)
  }

  function Reversed<T(==)>(E: set<(T, T)>): set<(T, T)>
  {
    set e | e in E :: (e.1, e.0)
  }

  lemma {:induction false} StepsMonotone<T(!new)>(E: set<(T, T)>, F: set<(T, T)>, s: T, t: T, n: nat)
    requires E <= F && Steps(E, s, t, n)
    ensures Steps(F, s, t, n)
  {
    if n > 0 {
      var m :| Steps(E, s, m, n - 1) && (m, t) in E;
      StepsMonotone(E, F, s, m, n - 1);
    }
  }

  lemma ReachMonotone<T(!new)>(E: set<(T, T)>, F: set<(T, T)>, s: T, t: T)
    requires E <= F && Reach(E, s, t)
    ensures Reach(F, s, t)
  {
    var n: nat :| Steps(E, s, t, n);
    StepsMonotone(E, F, s, t, n);
  }

  lemma {:induction false} StepsConcat<T(!new)>(E: set<(T, T)>, s: T, m: T, t: T, i: nat, j: nat)
    requires Steps(E, s, m, i) && Steps(E, m, t, j)
    ensures Steps(E, s, t, i + j)
  {
    if j > 0 {
      var p :| Steps(E, m, p, j - 1) && (p, t) in E;
      StepsConcat(E, s, m, p, i, j - 1);
      assert Steps(E, s, p, i + j - 1);
    }
  }

  lemma ReachTransitive<T(!new)>(E: set<(T, T)>, s: T, m: T, t: T)
    requires Reach(E, s, m) && Reach(E, m, t)
    ensures Reach(E, s, t)
  {
    var i: nat :| Steps(E, s, m, i);
    var j: nat :| Steps(E, m, t, j);
    StepsConcat(E, s, m, t, i, j);
  }

  lemma EdgeReach<T(!new)>(E: set<(T, T)>, s: T, t: T)
    requires (s, t) in E
    ensures Steps(E, s, t, 1) && Reach(E, s, t)
  {
    assert Steps(E, s, s, 0);
    assert Steps(E, s, t, 1);
  }

  lemma ReachReflexive<T(!new)>(E: set<(T, T)>, s: T)
    ensures Reach(E, s, s)
  {
    assert Steps(E, s, s, 0);
  }

  /** A non-empty walk can also be peeled at its first edge. */
  lemma {:induction false} StepsFirst<T(!new)>(E: set<(T, T)>, s: T, t: T, n: nat) returns (m: T)
    requires n > 0 && Steps(E, s, t, n)
    ensures (s, m) in E && Steps(E, m, t, n - 1)
  {
    var p :| Steps(E, s, p, n - 1) && (p, t) in E;
    if n == 1 {
      m := t;
    } else {
      m := StepsFirst(E, s, p, n - 1);
      assert Steps(E, m, t, n - 1);
    }
  }

  /** Walks in the reversed graph are the walks of the graph, read backwards. */
  lemma {:induction false} StepsReversed<T(!new)>(E: set<(T, T)>, s: T, t: T, n: nat)
    requires Steps(E, s, t, n)
    ensures Steps(Reversed(E), t, s, n)
  {
    if n > 0 {
      var m :| Steps(E, s, m, n - 1) && (m, t) in E;
      StepsReversed(E, s, m, n - 1);
      assert (t, m) in Reversed(E);
      EdgeReach(Reversed(E), t, m);
      StepsConcat(Reversed(E), t, m, s, 1, n - 1);
    }
  }

  /** A numbering that strictly drops along every edge bounds the length of walks. */
  lemma {:induction false} RankDrops<T(!new)>(E: set<(T, T)>, rank: map<T, nat>, s: T, t: T, n: nat)
    requires forall e | e in E :: e.0 in rank && e.1 in rank && rank[e.1] < rank[e.0]
    requires n > 0 && Steps(E, s, t, n)
    ensures s in rank && t in rank && rank[t] + n <= rank[s]
  {
    var m :| Steps(E, s, m, n - 1) && (m, t) in E;
    if n > 1 {
      RankDrops(E, rank, s, m, n - 1);
    }
  }

  lemma RankedIsAcyclic<T(!new)>(E: set<(T, T)>, rank: map<T, nat>)
    requires forall e | e in E :: e.0 in rank && e.1 in rank && rank[e.1] < rank[e.0]
    ensures Acyclic(E)
  {
    forall s, n: nat | Steps(E, s, s, n)
      ensures n == 0
    {
      if n > 0 {
        RankDrops(E, rank, s, s, n);
      }
    }
  }

  /** The breadth-first recurrence: level d + 1 is what level d points at and no
      smaller level contains. */
  lemma DistanceStep<T(!new)>(E: set<(T, T)>, s: T, t: T, d: nat)
    ensures Distance(E, s, t, d + 1) <==> !Within(E, s, t, d) && exists m :: Distance(E, s, m, d) && (m, t) in E
  {
    if Distance(E, s, t, d + 1) {
      var m :| Steps(E, s, m, d) && (m, t) in E;
      forall k: nat | k < d
        ensures !Steps(E, s, m, k)
      {
        if Steps(E, s, m, k) {
          assert Steps(E, s, t, k + 1);
        }
      }
      assert Distance(E, s, m, d);
    }
    if !Within(E, s, t, d) && exists m :: Distance(E, s, m, d) && (m, t) in E {
      var m :| Distance(E, s, m, d) && (m, t) in E;
      assert Steps(E, s, t, d + 1);
    }
  }

  /** Whatever is within `d` edges has a distance, and it is at most `d`. */
  lemma {:induction false} WithinHasDistance<T(!new)>(E: set<(T, T)>, s: T, t: T, d: nat) returns (k: nat)
    requires Within(E, s, t, d)
    ensures k <= d && Distance(E, s, t, k)
  {
    k :| k <= d && Steps(E, s, t, k);
    if j: nat :| j < k && Steps(E, s, t, j) {
      k := WithinHasDistance(E, s, t, j);
    }
  }

  lemma DistanceUnique<T(!new)>(E: set<(T, T)>, s: T, t: T, d: nat, e: nat)
    requires Distance(E, s, t, d) && Distance(E, s, t, e)
    ensures d == e
  {
  }

  /** Anything closed under the edges that holds the start holds all it reaches. */
  lemma {:induction false} ClosedHoldsReach<T(!new)>(E: set<(T, T)>, S: set<T>, s: T, t: T, n: nat)
    requires s in S && Steps(E, s, t, n)
    requires forall e | e in E && e.0 in S :: e.1 in S
    ensures t in S
  {
    if n > 0 {
      var m :| Steps(E, s, m, n - 1) && (m, t) in E;
      ClosedHoldsReach(E, S, s, m, n - 1);
    }
  }
}
