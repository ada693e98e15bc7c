/**
 The hop-by-hop column path (backend/routes/lineage.py, `_walk_column_lineage`): a
 breadth-first walk with a plain list as its queue, which may hold a column several times.
 */
module ColumnPath {
  import opened Graphs
  import opened Sequences

  datatype Side = Upstream | Downstream | Both

  /** One answer row: the column at the other end and the expression between the two. */
  datatype Row<T> = Row(other: T, expr: string)

  /** What the queries answer, per column; a query that fails answers nothing. */
  datatype Answers<T> = Answers(side: Side, up: map<T, seq<Row<T>>>, down: map<T, seq<Row<T>>>)

  datatype Hop<T> = Hop(hop: nat, upstream: bool, source: T, target: T, expr: string)

  function UpRows<T(==)>(a: Answers<T>, n: T): seq<Row<T>>
  {
    if a.side != Downstream && n in a.up then a.up[n] else []
  }

  function DownRows<T(==)>(a: Answers<T>, n: T): seq<Row<T>>
  {
    if a.side != Upstream && n in a.down then a.down[n] else []
  }

  /** The graph being walked. */
  ghost predicate Joins<T(!new)>(a: Answers<T>, n: T, m: T)
  {
    exists r :: (r in UpRows(a, n) || r in DownRows(a, n)) && r.other == m
  }

  ghost predicate IsGraph<T(!new)>(a: Answers<T>, E: set<(T, T)>)
  {
    forall n, m :: (n, m) in E <==> Joins(a, n, m)
  }

  ghost function GraphOf<T(!new)>(a: Answers<T>): (E: set<(T, T)>)
    ensures IsGraph(a, E)
  {
    var E := (set n, r | n in a.up && r in UpRows(a, n) :: (n, r.other))
             + (set n, r | n in a.down && r in DownRows(a, n) :: (n, r.other));
    assert forall n, m :: Joins(a, n, m) ==> (n, m) in E;
    E
  }

  /** The path entries of one answer. */
  function Hops<T>(rows: seq<Row<T>>, upstream: bool, n: T, k: nat): seq<Hop<T>>
  {
    if rows == [] then []
    else
      var r := rows[|rows| - 1];
      Hops(rows[..|rows| - 1], upstream, n, k)
      + [if upstream then Hop(k + 1, true, r.other, n, r.expr) else Hop(k + 1, false, n, r.other, r.expr)]
  }

  /** What expanding column `n` at hop `k` appends to the path. */
  function Entries<T(==)>(a: Answers<T>, n: T, k: nat): seq<Hop<T>>
  {
    Hops(UpRows(a, n), true, n, k) + Hops(DownRows(a, n), false, n, k)
  }

  /** The path of a list of expansions. */
  function PathOf<T(==)>(a: Answers<T>, expanded: seq<(T, nat)>): seq<Hop<T>>
  {
    if expanded == [] then []
    else PathOf(a, expanded[..|expanded| - 1]) + Entries(a, expanded[|expanded| - 1].0, expanded[|expanded| - 1].1)
  }

  // ---------------------------------------------------------------------------
  // The invariant
  // ---------------------------------------------------------------------------

  /** Hops in the queue never fall, and spread over at most two consecutive values. */
  ghost predicate Sorted<T(!new)>(queue: seq<(T, nat)>)
  {
    forall i, j | 0 <= i <= j < |queue| :: queue[i].1 <= queue[j].1 <= queue[i].1 + 1
  }

  /** Every successor of an expanded column is expanded, queued one hop further, or out of range. */
  ghost predicate Handed<T(!new)>(E: set<(T, T)>, visited: map<T, nat>, queue: seq<(T, nat)>, maxHops: nat, n: T, m: T)
    requires n in visited
  {
    (n, m) in E ==> m in visited || visited[n] + 1 >= maxHops || (m, visited[n] + 1) in queue
  }

  ghost predicate WalkInv<T(!new)>(E: set<(T, T)>, start: T, maxHops: nat, visited: map<T, nat>, queue: seq<(T, nat)>)
  {
    && Sorted(queue)
    && (forall e | e in queue :: Steps(E, start, e.0, e.1))
    && (forall n | n in visited :: Distance(E, start, n, visited[n]) && visited[n] < maxHops)
    && (forall n, m | n in visited :: Handed(E, visited, queue, maxHops, n, m))
    && (start in visited || maxHops == 0 || (start, 0) in queue)
  }

  /** An unexpanded column within range has a queued column on the way, no further than itself. */
  lemma {:induction false} QueuedOnTheWay<T(!new)>(E: set<(T, T)>, start: T, maxHops: nat, visited: map<T, nat>,
                                                   queue: seq<(T, nat)>, v: T, d: nat) returns (w: T, k: nat)
    requires WalkInv(E, start, maxHops, visited, queue)
    requires v !in visited && Distance(E, start, v, d) && d < maxHops
    ensures w !in visited && k <= d && (w, k) in queue
    decreases d
  {
    if d == 0 {
      w, k := v, 0;
    } else {
      DistanceStep(E, start, v, d - 1);
      var m :| Distance(E, start, m, d - 1) && (m, v) in E;
      if m in visited {
        DistanceUnique(E, start, m, d - 1, visited[m]);
        assert Handed(E, visited, queue, maxHops, m, v);
        w, k := v, d;
      } else {
        w, k := QueuedOnTheWay(E, start, maxHops, visited, queue, m, d - 1);
      }
    }
  }

  /** The front of the queue, when it is expanded, is at its true distance. */
  lemma FrontIsExact<T(!new)>(E: set<(T, T)>, start: T, maxHops: nat, visited: map<T, nat>, queue: seq<(T, nat)>)
    requires WalkInv(E, start, maxHops, visited, queue) && queue != []
    requires queue[0].0 !in visited && queue[0].1 < maxHops
    ensures Distance(E, start, queue[0].0, queue[0].1)
  {
    var (n, k) := queue[0];
    assert queue[0] in queue;
    assert Within(E, start, n, k);
    var d := WithinHasDistance(E, start, n, k);
    var w, j := QueuedOnTheWay(E, start, maxHops, visited, queue, n, d);
    var i :| 0 <= i < |queue| && queue[i] == (w, j);
  }

  /** An empty queue means that everything in range has been expanded. */
  lemma NothingLeft<T(!new)>(E: set<(T, T)>, start: T, maxHops: nat, visited: map<T, nat>, v: T)
    requires WalkInv(E, start, maxHops, visited, [])
    ensures v in visited <==> maxHops > 0 && Within(E, start, v, maxHops - 1)
  {
    if maxHops > 0 && Within(E, start, v, maxHops - 1) && v !in visited {
      var d := WithinHasDistance(E, start, v, maxHops - 1);
      var w, k := QueuedOnTheWay(E, start, maxHops, visited, [], v, d);
      assert false;
    }
  }

  /** Dropping a queue entry that is expanded already or out of range. */
  lemma SkipKeeps<T(!new)>(E: set<(T, T)>, start: T, maxHops: nat, visited: map<T, nat>, queue: seq<(T, nat)>)
    requires WalkInv(E, start, maxHops, visited, queue) && queue != []
    requires queue[0].0 in visited || queue[0].1 >= maxHops
    ensures WalkInv(E, start, maxHops, visited, queue[1..])
  {
    assert queue == [queue[0]] + queue[1..];
    forall n, m | n in visited ensures Handed(E, visited, queue[1..], maxHops, n, m) {
      assert Handed(E, visited, queue, maxHops, n, m);
    }
  }

  /** `more` queues successors of the column `e`, one hop further, and misses none that is
      neither expanded nor the column itself. */
  ghost predicate Successors<T(!new)>(E: set<(T, T)>, visited: map<T, nat>, e: (T, nat), more: seq<(T, nat)>)
  {
    && (forall f | f in more :: f.1 == e.1 + 1 && (e.0, f.0) in E)
    && (forall m | (e.0, m) in E :: m in visited || m == e.0 || (m, e.1 + 1) in more)
  }

  /** Expanding the front: its unexpanded successors are queued behind, one hop further. */
  lemma ExpandKeeps<T(!new)>(E: set<(T, T)>, start: T, maxHops: nat, visited: map<T, nat>, queue: seq<(T, nat)>,
                             more: seq<(T, nat)>)
    requires WalkInv(E, start, maxHops, visited, queue) && queue != []
    requires queue[0].0 !in visited && queue[0].1 < maxHops
    requires Successors(E, visited, queue[0], more)
    ensures WalkInv(E, start, maxHops, visited[queue[0].0 := queue[0].1], queue[1..] + more)
  {
    var (n, k) := queue[0];
    var visited', queue' := visited[n := k], queue[1..] + more;
    FrontIsExact(E, start, maxHops, visited, queue);
    assert queue == [queue[0]] + queue[1..];
    forall e | e in queue' ensures Steps(E, start, e.0, e.1) {
      if e in more {
        assert Steps(E, start, n, k);
      }
    }
    SortedExpansion(queue, more);
    forall a, b | a in visited' ensures Handed(E, visited', queue', maxHops, a, b) {
      if a != n {
        assert Handed(E, visited, queue, maxHops, a, b);
      }
    }
  }

  lemma SortedExpansion<T(!new)>(queue: seq<(T, nat)>, more: seq<(T, nat)>)
    requires Sorted(queue) && queue != [] && forall e | e in more :: e.1 == queue[0].1 + 1
    ensures Sorted(queue[1..] + more)
  {
    var all := queue[1..] + more;
    forall i | 0 <= i < |all| ensures queue[0].1 <= all[i].1 <= queue[0].1 + 1 {
      assert i < |queue| - 1 ==> all[i] == queue[i + 1];
      assert i >= |queue| - 1 ==> all[i] in more;
    }
    forall i, j | 0 <= i <= j < |all| ensures all[i].1 <= all[j].1 {
      if j < |queue| - 1 {
        assert all[i] == queue[i + 1] && all[j] == queue[j + 1];
      } else {
        assert all[j] in more;
      }
    }
  }

  // ---------------------------------------------------------------------------
  // The walk
  // ---------------------------------------------------------------------------

  /** The successors that one answer adds to the queue. */
  function Fresh<T(==)>(rows: seq<Row<T>>, visited: map<T, nat>, k: nat): seq<(T, nat)>
  {
    if rows == [] then []
    else
      var last := rows[|rows| - 1].other;
      Fresh(rows[..|rows| - 1], visited, k) + (if last in visited then [] else [(last, k + 1)])
  }

  lemma {:induction false} FreshFacts<T(!new)>(rows: seq<Row<T>>, visited: map<T, nat>, k: nat)
    ensures forall e :: e in Fresh(rows, visited, k) <==>
                        e.1 == k + 1 && e.0 !in visited && exists r :: r in rows && r.other == e.0
  {
    if rows != [] {
      var init, last := rows[..|rows| - 1], rows[|rows| - 1];
      assert rows == init + [last];
      FreshFacts(init, visited, k);
      forall e: (T, nat)
        ensures (exists r :: r in rows && r.other == e.0) <==> (exists r :: r in init && r.other == e.0) || last.other == e.0
      {
        assert last in rows;
        if r :| r in init && r.other == e.0 {
          assert r in rows;
        }
      }
    }
  }

  /** The loop over one answer: each row is reported, and followed unless already expanded. */
  method Follow<T(==)>(rows: seq<Row<T>>, upstream: bool, n: T, k: nat, visited: map<T, nat>,
                       path0: seq<Hop<T>>, queue0: seq<(T, nat)>)
    returns (path: seq<Hop<T>>, queue: seq<(T, nat)>)
    ensures path == path0 + Hops(rows, upstream, n, k)
    ensures queue == queue0 + Fresh(rows, visited, k)
  {
    path, queue := path0, queue0;
    for i := 0 to |rows|
      invariant path == path0 + Hops(rows[..i], upstream, n, k)
      invariant queue == queue0 + Fresh(rows[..i], visited, k)
    {
      assert rows[..i + 1][..i] == rows[..i];
      var r := rows[i];
      path := path + [if upstream then Hop(k + 1, true, r.other, n, r.expr) else Hop(k + 1, false, n, r.other, r.expr)];
      if r.other !in visited {
        queue := queue + [(r.other, k + 1)];
      }
    }
    assert rows[..|rows|] == rows;
  }

  /** Each column in range is expanded once, at its true distance, in order of distance. */
  ghost predicate ExpandedExactly<T(!new)>(E: set<(T, T)>, start: T, maxHops: nat, expanded: seq<(T, nat)>)
  {
    && (forall i | 0 <= i < |expanded| :: Distance(E, start, expanded[i].0, expanded[i].1) && expanded[i].1 < maxHops)
    && (forall i, j | 0 <= i < j < |expanded| :: expanded[i].0 != expanded[j].0 && expanded[i].1 <= expanded[j].1)
    && (forall v | maxHops > 0 && Within(E, start, v, maxHops - 1) :: IsExpanded(expanded, v))
  }

  ghost predicate IsExpanded<T(!new)>(expanded: seq<(T, nat)>, v: T)
  {
    exists i :: 0 <= i < |expanded| && expanded[i].0 == v
  }

  /** The expansions so far, as a list and as a map. */
  ghost predicate Records<T(!new)>(expanded: seq<(T, nat)>, visited: map<T, nat>, queue: seq<(T, nat)>)
  {
    && (forall i | 0 <= i < |expanded| :: expanded[i].0 in visited && visited[expanded[i].0] == expanded[i].1)
    && (forall n | n in visited :: IsExpanded(expanded, n))
    && (forall i, j | 0 <= i < j < |expanded| :: expanded[i].0 != expanded[j].0 && expanded[i].1 <= expanded[j].1)
    && (forall i, e | 0 <= i < |expanded| && e in queue :: expanded[i].1 <= e.1)
  }

  /** Every column the walk can meet. */
  ghost function Universe<T(!new)>(a: Answers<T>, E: set<(T, T)>, start: T): set<T>
  {
    {start} + set e | e in E :: e.1
  }

  lemma RecordOne<T(!new)>(expanded: seq<(T, nat)>, visited: map<T, nat>, queue: seq<(T, nat)>, more: seq<(T, nat)>)
    requires Records(expanded, visited, queue) && queue != [] && queue[0].0 !in visited && Sorted(queue)
    requires forall e | e in more :: e.1 == queue[0].1 + 1
    ensures Records(expanded + [queue[0]], visited[queue[0].0 := queue[0].1], queue[1..] + more)
  {
    var longer, visited', queue' := expanded + [queue[0]], visited[queue[0].0 := queue[0].1], queue[1..] + more;
    assert queue[0] in queue;
    forall n | n in visited' ensures IsExpanded(longer, n) {
      if n in visited {
        assert IsExpanded(expanded, n);
        var i :| 0 <= i < |expanded| && expanded[i].0 == n;
        assert longer[i].0 == n;
      } else {
        assert longer[|expanded|].0 == n;
      }
    }
    forall e | e in queue' ensures queue[0].1 <= e.1 {
      if e in queue[1..] {
        var i :| 0 < i < |queue| && queue[i] == e;
      }
    }
  }

  /** The successors queued by both answers of a column. */
  function Found<T(==)>(a: Answers<T>, visited: map<T, nat>, n: T, k: nat): seq<(T, nat)>
  {
    Fresh(UpRows(a, n), visited, k) + Fresh(DownRows(a, n), visited, k)
  }

  lemma FreshCoversEdges<T(!new)>(a: Answers<T>, E: set<(T, T)>, visited0: map<T, nat>, n: T, k: nat)
    requires IsGraph(a, E)
    ensures Successors(E, visited0, (n, k), Found(a, visited0[n := k], n, k))
  {
    var visited := visited0[n := k];
    FreshFacts(UpRows(a, n), visited, k);
    FreshFacts(DownRows(a, n), visited, k);
    forall m ensures (n, m) in E <==> Joins(a, n, m) {
    }
  }

  lemma ExpansionsExact<T(!new)>(E: set<(T, T)>, start: T, maxHops: nat, expanded: seq<(T, nat)>, visited: map<T, nat>)
    requires WalkInv(E, start, maxHops, visited, []) && Records(expanded, visited, [])
    ensures ExpandedExactly(E, start, maxHops, expanded)
  {
    forall v | maxHops > 0 && Within(E, start, v, maxHops - 1) ensures IsExpanded(expanded, v) {
      NothingLeft(E, start, maxHops, visited, v);
    }
  }

  /** Everything the walk maintains. */
  ghost predicate Walking<T(!new)>(a: Answers<T>, E: set<(T, T)>, start: T, maxHops: nat, visited: map<T, nat>,
                                   queue: seq<(T, nat)>, expanded: seq<(T, nat)>)
  {
    && IsGraph(a, E)
    && WalkInv(E, start, maxHops, visited, queue)
    && Records(expanded, visited, queue)
    && visited.Keys <= Universe(a, E, start)
    && (forall e | e in queue :: e.0 in Universe(a, E, start))
  }

  lemma SkipState<T(!new)>(a: Answers<T>, E: set<(T, T)>, start: T, maxHops: nat, visited: map<T, nat>,
                           queue: seq<(T, nat)>, expanded: seq<(T, nat)>)
    requires Walking(a, E, start, maxHops, visited, queue, expanded) && queue != []
    requires queue[0].0 in visited || queue[0].1 >= maxHops
    ensures Walking(a, E, start, maxHops, visited, queue[1..], expanded)
  {
    SkipKeeps(E, start, maxHops, visited, queue);
    TailMembers(queue);
  }

  lemma TailMembers<T(!new)>(queue: seq<(T, nat)>)
    requires queue != []
    ensures forall e :: e in queue[1..] ==> e in queue
  {
  }

  lemma ExpandUniverse<T(!new)>(a: Answers<T>, E: set<(T, T)>, start: T, visited: map<T, nat>,
                                queue: seq<(T, nat)>, more: seq<(T, nat)>)
    requires queue != [] && queue[0].0 !in visited && visited.Keys <= Universe(a, E, start)
    requires forall e | e in queue :: e.0 in Universe(a, E, start)
    requires forall e | e in more :: (queue[0].0, e.0) in E
    ensures visited.Keys + {queue[0].0} <= Universe(a, E, start)
    ensures Universe(a, E, start) - (visited.Keys + {queue[0].0}) < Universe(a, E, start) - visited.Keys
    ensures forall e | e in queue[1..] + more :: e.0 in Universe(a, E, start)
  {
    var U := Universe(a, E, start);
    assert queue[0] in queue;
    assert queue[0].0 in U - visited.Keys;
    forall e | e in more ensures e.0 in U {
      assert (queue[0].0, e.0).1 in U;
    }
  }

  lemma ExpandState<T(!new)>(a: Answers<T>, E: set<(T, T)>, start: T, maxHops: nat, visited: map<T, nat>,
                             queue: seq<(T, nat)>, expanded: seq<(T, nat)>, more: seq<(T, nat)>)
    requires Walking(a, E, start, maxHops, visited, queue, expanded) && queue != []
    requires queue[0].0 !in visited && queue[0].1 < maxHops
    requires Successors(E, visited, queue[0], more)
    ensures Walking(a, E, start, maxHops, visited[queue[0].0 := queue[0].1], queue[1..] + more, expanded + [queue[0]])
    ensures Universe(a, E, start) - visited[queue[0].0 := queue[0].1].Keys < Universe(a, E, start) - visited.Keys
  {
    ExpandKeeps(E, start, maxHops, visited, queue, more);
    RecordOne(expanded, visited, queue, more);
    ExpandUniverse(a, E, start, visited, queue, more);
    assert visited[queue[0].0 := queue[0].1].Keys == visited.Keys + {queue[0].0};
  }

  lemma ExpandFront<T(!new)>(a: Answers<T>, E: set<(T, T)>, start: T, maxHops: nat, visited: map<T, nat>,
                             queue: seq<(T, nat)>, expanded: seq<(T, nat)>)
    requires Walking(a, E, start, maxHops, visited, queue, expanded) && queue != []
    requires queue[0].0 !in visited && queue[0].1 < maxHops
    ensures var n, k := queue[0].0, queue[0].1;
            && Walking(a, E, start, maxHops, visited[n := k], queue[1..] + Found(a, visited[n := k], n, k), expanded + [queue[0]])
            && Universe(a, E, start) - visited[n := k].Keys < Universe(a, E, start) - visited.Keys
  {
    var n, k := queue[0].0, queue[0].1;
    FreshCoversEdges(a, E, visited, n, k);
    ExpandState(a, E, start, maxHops, visited, queue, expanded, Found(a, visited[n := k], n, k));
  }

  lemma PathGrows<T(!new)>(a: Answers<T>, expanded: seq<(T, nat)>, e: (T, nat))
    ensures PathOf(a, expanded + [e]) == PathOf(a, expanded) + Entries(a, e.0, e.1)
  {
    assert (expanded + [e])[..|expanded|] == expanded;
  }

  /** The path reports, expansion by expansion, every answer row of every column at distance
      below `maxHops`. */
  ghost predicate Reports<T(!new)>(a: Answers<T>, start: T, maxHops: nat, path: seq<Hop<T>>)
  {
    exists expanded :: ExpandedExactly(GraphOf(a), start, maxHops, expanded) && path == PathOf(a, expanded)
  }

  /** `_walk_column_lineage` */
  method WalkColumnLineage<T(!new, ==)>(a: Answers<T>, start: T, maxHops: nat) returns (path: seq<Hop<T>>)
    ensures Reports(a, start, maxHops, path)
  {
    ghost var E := GraphOf(a);
    ghost var expanded: seq<(T, nat)> := [];
    path := [];
    var queue: seq<(T, nat)> := [(start, 0)];
    var visited: map<T, nat> := map[];
    assert Steps(E, start, start, 0);
    while queue != []
      invariant Walking(a, E, start, maxHops, visited, queue, expanded)
      invariant path == PathOf(a, expanded)
      decreases Universe(a, E, start) - visited.Keys, |queue|
    {
      var (n, hop) := queue[0];
      if n in visited || hop >= maxHops {
        SkipState(a, E, start, maxHops, visited, queue, expanded);
        queue := queue[1..];
      } else {
        ExpandFront(a, E, start, maxHops, visited, queue, expanded);
        PathGrows(a, expanded, queue[0]);
        expanded := expanded + [queue[0]];
        path, queue, visited := ExpandColumn(a, n, hop, visited, path, queue[1..]);
      }
    }
    ExpansionsExact(E, start, maxHops, expanded, visited);
  }

  /** Reports and follows the answers of one column. */
  method ExpandColumn<T(==)>(a: Answers<T>, n: T, hop: nat, visited0: map<T, nat>, path0: seq<Hop<T>>, queue0: seq<(T, nat)>)
    returns (path: seq<Hop<T>>, queue: seq<(T, nat)>, visited: map<T, nat>)
    ensures visited == visited0[n := hop] && path == path0 + Entries(a, n, hop)
    ensures queue == queue0 + Found(a, visited, n, hop)
  {
    visited := visited0[n := hop];
    path, queue := Follow(UpRows(a, n), true, n, hop, visited, path0, queue0);
    path, queue := Follow(DownRows(a, n), false, n, hop, visited, path, queue);
  }

  /** The row that a path entry stands for was answered for the column at its near end: an
      upstream entry leads from the answered column into the one that was asked about, a
      downstream entry the other way round. The column asked about lies one hop nearer, and
      its answer is in a direction that was asked for. */
  ghost predicate IsAnswer<T(!new)>(a: Answers<T>, E: set<(T, T)>, start: T, maxHops: nat, h: Hop<T>)
  {
    && 1 <= h.hop <= maxHops
    && Distance(E, start, if h.upstream then h.target else h.source, h.hop - 1)
    && (h.upstream ==> a.side != Downstream && h.target in a.up && Row(h.source, h.expr) in a.up[h.target])
    && (!h.upstream ==> a.side != Upstream && h.source in a.down && Row(h.target, h.expr) in a.down[h.source])
  }

  /** The entry for a row of the answer about column `n`. */
  ghost predicate FromRow<T(!new)>(rows: seq<Row<T>>, upstream: bool, n: T, k: nat, h: Hop<T>)
  {
    && h.hop == k + 1 && h.upstream == upstream && n == (if upstream then h.target else h.source)
    && Row(if upstream then h.source else h.target, h.expr) in rows
  }

  lemma {:induction false} HopsAreRows<T(!new)>(rows: seq<Row<T>>, upstream: bool, n: T, k: nat, h: Hop<T>)
    ensures h in Hops(rows, upstream, n, k) <==> FromRow(rows, upstream, n, k, h)
  {
    if rows != [] {
      var init, last := rows[..|rows| - 1], rows[|rows| - 1];
      assert rows == init + [last];
      HopsAreRows(init, upstream, n, k, h);
    }
  }

  lemma EntriesAreRows<T(!new)>(a: Answers<T>, n: T, k: nat, h: Hop<T>)
    ensures h in Entries(a, n, k) <==> FromRow(UpRows(a, n), true, n, k, h) || FromRow(DownRows(a, n), false, n, k, h)
  {
    HopsAreRows(UpRows(a, n), true, n, k, h);
    HopsAreRows(DownRows(a, n), false, n, k, h);
  }

  lemma {:induction false} PathIsEntries<T(!new)>(a: Answers<T>, expanded: seq<(T, nat)>, h: Hop<T>)
    ensures h in PathOf(a, expanded) <==> exists e: (T, nat) :: e in expanded && h in Entries(a, e.0, e.1)
  {
    if expanded != [] {
      var init, last := expanded[..|expanded| - 1], expanded[|expanded| - 1];
      assert expanded == init + [last];
      PathIsEntries(a, init, h);
    }
  }

  lemma ReportedIsAnswer<T(!new)>(a: Answers<T>, E: set<(T, T)>, start: T, maxHops: nat, expanded: seq<(T, nat)>, e: (T, nat), h: Hop<T>)
    requires ExpandedExactly(E, start, maxHops, expanded) && e in expanded && h in Entries(a, e.0, e.1)
    ensures IsAnswer(a, E, start, maxHops, h)
  {
    EntriesAreRows(a, e.0, e.1, h);
    var i :| 0 <= i < |expanded| && expanded[i] == e;
  }

  lemma AnswerIsReported<T(!new)>(a: Answers<T>, E: set<(T, T)>, start: T, maxHops: nat, expanded: seq<(T, nat)>, h: Hop<T>) returns (e: (T, nat))
    requires ExpandedExactly(E, start, maxHops, expanded) && IsAnswer(a, E, start, maxHops, h)
    ensures e in expanded && h in Entries(a, e.0, e.1)
  {
    e := (if h.upstream then h.target else h.source, h.hop - 1);
    EntriesAreRows(a, e.0, e.1, h);
    ExpandedAt(E, start, maxHops, expanded, e.0, e.1);
  }

  lemma PathOfAnswers<T(!new)>(a: Answers<T>, E: set<(T, T)>, start: T, maxHops: nat, expanded: seq<(T, nat)>, h: Hop<T>)
    requires ExpandedExactly(E, start, maxHops, expanded)
    ensures h in PathOf(a, expanded) <==> IsAnswer(a, E, start, maxHops, h)
  {
    PathIsEntries(a, expanded, h);
    if h in PathOf(a, expanded) {
      var e: (T, nat) :| e in expanded && h in Entries(a, e.0, e.1);
      ReportedIsAnswer(a, E, start, maxHops, expanded, e, h);
    }
    if IsAnswer(a, E, start, maxHops, h) {
      var e := AnswerIsReported(a, E, start, maxHops, expanded, h);
    }
  }

  /** An entry is in the path if and only if it is a row answered for a column at distance
      below `maxHops`, with its two ends the right way round. */
  lemma PathIsAnswers<T(!new)>(a: Answers<T>, start: T, maxHops: nat, path: seq<Hop<T>>, h: Hop<T>)
    requires Reports(a, start, maxHops, path)
    ensures h in path <==> IsAnswer(a, GraphOf(a), start, maxHops, h)
  {
    var E := GraphOf(a);
    var expanded: seq<(T, nat)> :| ExpandedExactly(E, start, maxHops, expanded) && path == PathOf(a, expanded);
    PathOfAnswers(a, E, start, maxHops, expanded, h);
  }

  lemma ExpandedAt<T(!new)>(E: set<(T, T)>, start: T, maxHops: nat, expanded: seq<(T, nat)>, n: T, k: nat)
    requires ExpandedExactly(E, start, maxHops, expanded) && Distance(E, start, n, k) && k < maxHops
    ensures (n, k) in expanded
  {
    assert Within(E, start, n, maxHops - 1);
    assert IsExpanded(expanded, n);
    var i :| 0 <= i < |expanded| && expanded[i].0 == n;
    DistanceUnique(E, start, n, k, expanded[i].1);
  }
}
