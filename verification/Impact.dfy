/** The blast radius of a table (backend/routes/impact.py, `_bfs_downstream`). */
module Impact {
  import opened Bfs
  import opened Graphs
  import opened Sequences
  import opened Wrappers

  /** The edges of the lineage relation; a row without a target table leads nowhere. */
  ghost function EdgesOf<T(!new)>(rel: set<(T, Option<T>)>): set<(T, T)>
  {
    set r | r in rel && r.1.Some? :: (r.0, r.1.value)
  }

  /** `visited` maps exactly the other tables of the ball around `start` to their distance. */
  ghost predicate DistanceMap<T(!new)>(E: set<(T, T)>, start: T, radius: nat, visited: map<T, nat>)
  {
    && (forall t :: t in visited <==> t != start && Within(E, start, t, radius))
    && (forall t | t in visited :: Distance(E, start, t, visited[t]))
  }

  /** The hops that are walked: at most `hops`, and none from the first failing query on. */
  function Radius(hops: nat, fails: set<nat>): nat
  {
    if hops == 0 then 0
    else if Radius(hops - 1, fails) == hops - 1 && hops !in fails then hops
    else Radius(hops - 1, fails)
  }

  lemma {:induction false} RadiusLaw(hops: nat, fails: set<nat>, r: nat)
    requires r <= hops && (forall k: nat | 1 <= k <= r :: k !in fails)
    ensures r <= Radius(hops, fails) <= hops
    ensures r < hops && r + 1 in fails ==> Radius(hops, fails) == r
  {
    if hops > 0 {
      if r < hops {
        RadiusLaw(hops - 1, fails, r);
      } else {
        RadiusLaw(hops - 1, fails, r - 1);
      }
    }
  }

  /** One hop: the answer's targets that are neither the start nor known get the hop number. */
  method Hop<T(!new, ==)>(rel: set<(T, Option<T>)>, start: T, frontier: seq<T>, hop: nat, visited0: map<T, nat>)
    returns (visited: map<T, nat>, next: seq<T>)
    ensures visited0.Keys <= visited.Keys && forall t | t in visited0 :: visited[t] == visited0[t]
    ensures Lists(next, visited.Keys - visited0.Keys) && forall t | t in next :: visited[t] == hop
    ensures forall t :: t in next <==> t != start && t !in visited0 && exists m :: m in frontier && (m, t) in EdgesOf(rel)
  {
    visited, next := visited0, [];
    var answer := set r | r in rel && r.0 in frontier :: r.1;
    var todo := answer;
    while todo != {}
      invariant todo <= answer
      invariant visited0.Keys <= visited.Keys && forall t | t in visited0 :: visited[t] == visited0[t]
      invariant Lists(next, visited.Keys - visited0.Keys) && forall t | t in next :: visited[t] == hop
      invariant forall t :: t in next <==> t != start && t !in visited0 && Some(t) in answer - todo
    {
      var t :| t in todo;
      todo := todo - {t};
      if t.Some? && t.value != start && t.value !in visited {
        ListsAdd(next, visited.Keys - visited0.Keys, t.value);
        assert visited[t.value := hop].Keys - visited0.Keys == visited.Keys - visited0.Keys + {t.value};
        visited := visited[t.value := hop];
        next := next + [t.value];
      }
    }
    forall t ensures Some(t) in answer <==> exists m :: m in frontier && (m, t) in EdgesOf(rel) {
      if Some(t) in answer {
        var r :| r in rel && r.0 in frontier && r.1 == Some(t);
        assert (r.0, t) in EdgesOf(rel);
      }
      if m :| m in frontier && (m, t) in EdgesOf(rel) {
        assert (m, Some(t)) in rel;
      }
    }
  }

  /** `_bfs_downstream`; `fails` are the hops whose query raises. The result is exactly the
      distance map of the ball of radius `max_hops`, or after a failed hop of the ball
      already completed. */
  method BfsDownstream<T(!new, ==)>(rel: set<(T, Option<T>)>, start: T, maxHops: int, fails: set<nat>)
    returns (visited: map<T, nat>)
    ensures DistanceMap(EdgesOf(rel), start, Radius(if maxHops < 0 then 0 else maxHops, fails), visited)
  {
    ghost var E := EdgesOf(rel);
    ghost var hops: nat := if maxHops < 0 then 0 else maxHops;
    visited := map[];
    var frontier := [start];
    var hop: nat := 0;
    BallStarts(E, start);
    PrefixStep(frontier, 0);
    assert Prefix(frontier, |frontier|) == {start};
    while frontier != [] && hop < maxHops
      invariant hop <= hops && forall k: nat | 1 <= k <= hop :: k !in fails
      invariant DistanceMap(E, start, hop, visited)
      invariant IsLevel(E, start, Prefix(frontier, |frontier|), hop)
      decreases maxHops - hop
    {
      hop := hop + 1;
      if hop in fails {
        RadiusLaw(hops, fails, hop - 1);
        return;
      }
      ghost var before, level := visited, Prefix(frontier, |frontier|);
      PrefixAll(frontier);
      visited, frontier := Hop(rel, start, frontier, hop, visited);
      PrefixAll(frontier);
      HopIsExact(E, start, hop - 1, before, level, visited, Prefix(frontier, |frontier|));
    }
    RadiusLaw(hops, fails, hop);
    if frontier == [] {
      assert Prefix(frontier, |frontier|) == {};
      Exhausted(E, start, visited, hop, Radius(hops, fails));
    }
  }

  lemma HopIsExact<T(!new)>(E: set<(T, T)>, start: T, d: nat, before: map<T, nat>, level: set<T>,
                            visited: map<T, nat>, next: set<T>)
    requires DistanceMap(E, start, d, before) && IsLevel(E, start, level, d)
    requires before.Keys <= visited.Keys && forall t | t in before :: visited[t] == before[t]
    requires next == visited.Keys - before.Keys && forall t | t in next :: visited[t] == d + 1
    requires forall t :: t in next <==> t != start && t !in before && exists m :: m in level && (m, t) in E
    ensures DistanceMap(E, start, d + 1, visited) && IsLevel(E, start, next, d + 1)
  {
    assert Within(E, start, start, d) by {
      assert Steps(E, start, start, 0);
    }
    BallGrows(E, start, before.Keys + {start}, level, next, d);
  }

  lemma Exhausted<T(!new)>(E: set<(T, T)>, start: T, visited: map<T, nat>, hop: nat, radius: nat)
    requires DistanceMap(E, start, hop, visited) && IsLevel(E, start, {}, hop) && hop <= radius
    ensures DistanceMap(E, start, radius, visited)
  {
    var after := hop + 1;
    forall t ensures !Distance(E, start, t, after) {
      DistanceStep(E, start, t, hop);
    }
    assert Within(E, start, start, hop) by {
      assert Steps(E, start, start, 0);
    }
    BallStops(E, start, visited.Keys + {start}, hop, radius);
  }
}
