/**
 Backtracking the transformations of a column (backend/transform_service.py, the fetch
 of `backtrack_transform_lineage`): breadth-first levels over the captured edges.
 */
module Backtrack {
  import opened Bfs
  import opened Graphs
  import opened Sequences

  /** One captured row: column node `src` flows into column node `dst`. */
  datatype Edge = Edge(src: string, dst: string, expr: string)

  datatype Level = Level(depth: nat, nodes: seq<string>, transforms: seq<Edge>)

  datatype Response =
    | Untraced(isSource: bool)
    | Traced(levels: seq<Level>, totalNodes: nat, totalEdges: nat, maxDepthReached: nat)

  type Pair = (string, string)

  /** The upstream graph: a column leads to the columns it is computed from. */
  function Upstream(edges: seq<Edge>): set<Pair>
  {
    set e | e in edges :: (e.dst, e.src)
  }

  /** The string by which hops are deduplicated, `f"{src_id}|{node_id}"`. */
  function KeyOf(e: Edge): string
  {
    e.src + "|" + e.dst
  }

  ghost predicate KeysDistinct(transforms: seq<Edge>)
  {
    forall i, j | 0 <= i < j < |transforms| :: KeyOf(transforms[i]) != KeyOf(transforms[j])
  }

  // ---------------------------------------------------------------------------
  // One level
  // ---------------------------------------------------------------------------

  /** What the inner loops update: the new level, the next frontier, the visited set and
      the keys seen on this level. */
  datatype Sweep = Sweep(nodes: seq<string>, transforms: seq<Edge>, next: set<string>, visited: set<string>, seen: set<string>)

  function Visit(w: Sweep, e: Edge): Sweep
  {
    if KeyOf(e) in w.seen then w
    else
      var recorded := w.(transforms := w.transforms + [e], seen := w.seen + {KeyOf(e)});
      if e.src in w.visited then recorded
      else recorded.(nodes := w.nodes + [e.src], next := w.next + {e.src}, visited := w.visited + {e.src})
  }

  ghost function KeysIn(S: set<Edge>): set<string>
  {
    set e | e in S :: KeyOf(e)
  }

  ghost function SourcesIn(S: set<Edge>): set<string>
  {
    set e | e in S :: e.src
  }

  /** The sweep after looking at the edges in `done`, starting from the ball `ball`. */
  ghost predicate Swept(ball: set<string>, done: set<Edge>, w: Sweep)
  {
    && w.seen == KeysIn(done) == KeysIn(Members(w.transforms))
    && Members(w.transforms) <= done
    && KeysDistinct(w.transforms)
    && w.next == SourcesIn(Members(w.transforms)) - ball
    && Lists(w.nodes, w.next)
    && w.visited == ball + w.next
  }

  lemma VisitSweeps(ball: set<string>, done: set<Edge>, w: Sweep, e: Edge)
    requires Swept(ball, done, w)
    ensures Swept(ball, done + {e}, Visit(w, e))
  {
    assert KeysIn(done + {e}) == KeysIn(done) + {KeyOf(e)};
    if KeyOf(e) !in w.seen {
      MembersAppend(w.transforms, e);
      assert KeysIn(Members(w.transforms) + {e}) == KeysIn(Members(w.transforms)) + {KeyOf(e)};
      assert SourcesIn(Members(w.transforms) + {e}) == SourcesIn(Members(w.transforms)) + {e.src};
      NewKey(w.transforms, e);
      if e.src !in w.visited {
        ListsAdd(w.nodes, w.next, e.src);
      }
    }
  }

  lemma NewKey(transforms: seq<Edge>, e: Edge)
    requires KeysDistinct(transforms) && KeyOf(e) !in KeysIn(Members(transforms))
    ensures KeysDistinct(transforms + [e])
  {
    forall i | 0 <= i < |transforms| ensures KeyOf(transforms[i]) != KeyOf(e) {
      assert transforms[i] in Members(transforms);
    }
  }

  /** The edges into the nodes of `S`. */
  ghost function EdgesInto(edges: seq<Edge>, S: set<string>): set<Edge>
  {
    set e | e in edges && e.dst in S
  }

  /** The edges into `n`, in list order. */
  function Into(edges: seq<Edge>, n: string): seq<Edge>
  {
    if edges == [] then []
    else Into(edges[..|edges| - 1], n) + if edges[|edges| - 1].dst == n then [edges[|edges| - 1]] else []
  }

  /** The index of the edges by their destination, in list order. */
  ghost predicate Indexes(edges: seq<Edge>, idx: map<string, seq<Edge>>)
  {
    && (forall n :: n in idx <==> exists e :: e in edges && e.dst == n)
    && (forall n | n in idx :: idx[n] == Into(edges, n))
  }

  lemma {:induction false} IntoHolds(edges: seq<Edge>, n: string, e: Edge)
    ensures e in Into(edges, n) <==> e in edges && e.dst == n
  {
    if edges != [] {
      IntoHolds(edges[..|edges| - 1], n, e);
      assert edges == edges[..|edges| - 1] + [edges[|edges| - 1]];
    }
  }

  function IndexOne(idx: map<string, seq<Edge>>, e: Edge): map<string, seq<Edge>>
  {
    idx[e.dst := (if e.dst in idx then idx[e.dst] else []) + [e]]
  }

  lemma IntoAppend(edges: seq<Edge>, e: Edge, n: string)
    ensures Into(edges + [e], n) == Into(edges, n) + if e.dst == n then [e] else []
  {
    assert (edges + [e])[..|edges|] == edges;
  }

  lemma IntoNothing(edges: seq<Edge>, n: string)
    requires !exists e :: e in edges && e.dst == n
    ensures Into(edges, n) == []
  {
    if Into(edges, n) != [] {
      IntoHolds(edges, n, Into(edges, n)[0]);
    }
  }

  lemma IndexStep(edges: seq<Edge>, idx: map<string, seq<Edge>>, e: Edge)
    requires Indexes(edges, idx)
    ensures Indexes(edges + [e], IndexOne(idx, e))
  {
    forall n: string ensures n in IndexOne(idx, e) <==> exists f :: f in edges + [e] && f.dst == n {
      if n in idx {
        var f :| f in edges && f.dst == n;
        assert f in edges + [e];
      }
      assert e in edges + [e];
    }
    forall n | n in IndexOne(idx, e) ensures IndexOne(idx, e)[n] == Into(edges + [e], n) {
      IntoAppend(edges, e, n);
      if n !in idx {
        IntoNothing(edges, n);
      }
    }
  }

  lemma IndexNext(edges: seq<Edge>, i: nat, idx: map<string, seq<Edge>>)
    requires i < |edges| && Indexes(edges[..i], idx)
    ensures Indexes(edges[..i + 1], IndexOne(idx, edges[i]))
    ensures SourcesIn(Members(edges[..i + 1])) == SourcesIn(Members(edges[..i])) + {edges[i].src}
  {
    assert edges[..i + 1] == edges[..i] + [edges[i]];
    IndexStep(edges[..i], idx, edges[i]);
    MembersAppend(edges[..i], edges[i]);
    assert SourcesIn(Members(edges[..i]) + {edges[i]}) == SourcesIn(Members(edges[..i])) + {edges[i].src};
  }

  method BuildIndex(edges: seq<Edge>) returns (idx: map<string, seq<Edge>>, sources: set<string>)
    ensures Indexes(edges, idx) && sources == SourcesIn(Members(edges))
  {
    idx, sources := map[], {};
    for i := 0 to |edges|
      invariant Indexes(edges[..i], idx) && sources == SourcesIn(Members(edges[..i]))
    {
      IndexNext(edges, i, idx);
      idx := IndexOne(idx, edges[i]);
      sources := sources + {edges[i].src};
    }
    assert edges[..|edges|] == edges;
  }

  /** The first row of the list with its key. */
  ghost predicate FirstWithKey(rows: seq<Edge>, e: Edge)
  {
    exists k :: 0 <= k < |rows| && rows[k] == e && forall j | 0 <= j < k :: KeyOf(rows[j]) != KeyOf(e)
  }

  /** The first row of the list with its source and destination. */
  ghost predicate FirstRow(edges: seq<Edge>, e: Edge)
  {
    exists k :: 0 <= k < |edges| && edges[k] == e && forall j | 0 <= j < k :: !(edges[j].src == e.src && edges[j].dst == e.dst)
  }

  lemma {:induction false} FirstOfNode(edges: seq<Edge>, n: string, e: Edge)
    requires FirstWithKey(Into(edges, n), e)
    ensures FirstRow(edges, e)
  {
    var rows := Into(edges, n);
    var k :| 0 <= k < |rows| && rows[k] == e && forall j | 0 <= j < k :: KeyOf(rows[j]) != KeyOf(e);
    var init := edges[..|edges| - 1];
    if k < |Into(init, n)| {
      assert Into(init, n)[k] == e && forall j | 0 <= j < k :: Into(init, n)[j] == rows[j];
      FirstOfNode(init, n, e);
      var m :| 0 <= m < |init| && init[m] == e && forall j | 0 <= j < m :: !(init[j].src == e.src && init[j].dst == e.dst);
      assert edges[m] == e && forall j | 0 <= j < m :: edges[j] == init[j];
    } else {
      forall j | 0 <= j < |edges| - 1 ensures !(edges[j].src == e.src && edges[j].dst == e.dst) {
        IntoHolds(init, n, edges[j]);
        if edges[j].dst == n {
          assert init[j] == edges[j];
          var i :| 0 <= i < |Into(init, n)| && Into(init, n)[i] == edges[j];
          assert rows[i] == edges[j];
        }
      }
      assert edges[|edges| - 1] == e;
    }
  }

  /** What is newly recorded is the first of its key among the node's rows. */
  ghost predicate RecordsFirst(node: seq<Edge>, w0: Sweep, w: Sweep)
  {
    forall e | e in w.transforms :: e in w0.transforms || FirstWithKey(node, e)
  }

  lemma VisitRecordsFirst(node: seq<Edge>, i: nat, ball: set<string>, done: set<Edge>, w0: Sweep, w: Sweep)
    requires i < |node| && Swept(ball, done + Members(node[..i]), w) && RecordsFirst(node, w0, w)
    ensures RecordsFirst(node, w0, Visit(w, node[i]))
  {
    if KeyOf(node[i]) !in w.seen {
      forall j | 0 <= j < i ensures KeyOf(node[j]) != KeyOf(node[i]) {
        assert node[..i][j] == node[j] && node[j] in done + Members(node[..i]);
        assert KeyOf(node[j]) in KeysIn(done + Members(node[..i]));
      }
      assert FirstWithKey(node, node[i]);
    }
  }

  /** `for edge in node_edges`. */
  method SweepNode(node: seq<Edge>, ghost ball: set<string>, ghost done: set<Edge>, w0: Sweep) returns (w: Sweep)
    requires Swept(ball, done, w0)
    ensures Swept(ball, done + Members(node), w) && RecordsFirst(node, w0, w)
  {
    w := w0;
    assert done + Members(node[..0]) == done;
    for i := 0 to |node|
      invariant Swept(ball, done + Members(node[..i]), w) && RecordsFirst(node, w0, w)
    {
      VisitRecordsFirst(node, i, ball, done, w0, w);
      VisitSweeps(ball, done + Members(node[..i]), w, node[i]);
      MembersAppend(node[..i], node[i]);
      assert node[..i + 1] == node[..i] + [node[i]];
      assert done + Members(node[..i]) + {node[i]} == done + Members(node[..i + 1]);
      w := Visit(w, node[i]);
    }
    assert node[..|node|] == node;
  }

  /** Of the rows of one hop, only the first one is ever recorded. */
  ghost predicate FirstRows(edges: seq<Edge>, transforms: seq<Edge>)
  {
    forall e | e in transforms :: FirstRow(edges, e)
  }

  lemma NodeRecordsFirst(edges: seq<Edge>, n: string, w0: Sweep, w: Sweep)
    requires FirstRows(edges, w0.transforms) && RecordsFirst(Into(edges, n), w0, w)
    ensures FirstRows(edges, w.transforms)
  {
    forall e | e in w.transforms ensures FirstRow(edges, e) {
      if e !in w0.transforms {
        FirstOfNode(edges, n, e);
      }
    }
  }

  lemma NodeIsSwept(edges: seq<Edge>, idx: map<string, seq<Edge>>, done: set<string>, n: string)
    requires Indexes(edges, idx) && n in idx
    ensures EdgesInto(edges, done) + Members(idx[n]) == EdgesInto(edges, done + {n})
  {
    forall e ensures e in Members(idx[n]) <==> e in edges && e.dst == n {
      IntoHolds(edges, n, e);
    }
  }

  /** One round of the depth loop. */
  method SweepLevel(edges: seq<Edge>, idx: map<string, seq<Edge>>, frontier: set<string>, visited: set<string>)
    returns (w: Sweep)
    requires Indexes(edges, idx)
    ensures Swept(visited, EdgesInto(edges, frontier), w) && FirstRows(edges, w.transforms)
  {
    w := Sweep([], [], {}, visited, {});
    var todo := frontier;
    assert EdgesInto(edges, frontier - todo) == {};
    while todo != {}
      invariant todo <= frontier && Swept(visited, EdgesInto(edges, frontier - todo), w) && FirstRows(edges, w.transforms)
    {
      var n :| n in todo;
      if n in idx {
        assert frontier - (todo - {n}) == frontier - todo + {n};
        NodeIsSwept(edges, idx, frontier - todo, n);
        ghost var before := w;
        w := SweepNode(idx[n], visited, EdgesInto(edges, frontier - todo), w);
        NodeRecordsFirst(edges, n, before, w);
      } else {
        assert EdgesInto(edges, frontier - (todo - {n})) == EdgesInto(edges, frontier - todo);
      }
      todo := todo - {n};
    }
    assert frontier - {} == frontier;
  }

  // ---------------------------------------------------------------------------
  // Levels are distances
  // ---------------------------------------------------------------------------

  function PairOf(e: Edge): Pair
  {
    (e.dst, e.src)
  }

  ghost function PairsIn(S: set<Edge>): set<Pair>
  {
    set e | e in S :: PairOf(e)
  }

  /** Two different hops into nodes at distance `d` have different keys. */
  ghost predicate NoClashAt(edges: seq<Edge>, target: string, d: nat)
  {
    forall e, f | e in edges && f in edges && KeyOf(e) == KeyOf(f) :: 
      Distance(Upstream(edges), target, e.dst, d) && Distance(Upstream(edges), target, f.dst, d) ==> PairOf(e) == PairOf(f)
  }

  /** No two different hops of the same level share a key, down to the depth limit. */
  ghost predicate NoClash(edges: seq<Edge>, target: string, depth: nat)
  {
    forall d: nat | d < depth :: NoClashAt(edges, target, d)
  }

  /** Level `d` holds exactly the columns at distance `d`, each once, and exactly the hops
      into the columns at distance `d - 1`, each once. */
  ghost predicate ExactLevel(U: set<Pair>, target: string, d: nat, level: Level)
    requires d > 0
  {
    && level.depth == d
    && NoDuplicates(level.nodes) && IsLevel(U, target, Members(level.nodes), d)
    && PairsDistinct(level.transforms)
    && (forall p :: p in PairsIn(Members(level.transforms)) <==> p in U && Distance(U, target, p.0, d - 1))
  }

  ghost predicate PairsDistinct(transforms: seq<Edge>)
  {
    forall i, j | 0 <= i < j < |transforms| :: PairOf(transforms[i]) != PairOf(transforms[j])
  }

  /** Without a clash every hop into the frontier is recorded. */
  lemma SweepCovers(edges: seq<Edge>, target: string, d: nat, frontier: set<string>, ball: set<string>, w: Sweep)
    requires NoClashAt(edges, target, d) && IsLevel(Upstream(edges), target, frontier, d)
    requires Swept(ball, EdgesInto(edges, frontier), w)
    ensures PairsIn(Members(w.transforms)) == PairsIn(EdgesInto(edges, frontier))
    ensures PairsDistinct(w.transforms)
  {
    forall e | e in EdgesInto(edges, frontier) ensures PairOf(e) in PairsIn(Members(w.transforms)) {
      assert KeyOf(e) in KeysIn(Members(w.transforms));
      var f :| f in Members(w.transforms) && KeyOf(f) == KeyOf(e);
      assert f in EdgesInto(edges, frontier);
    }
  }

  lemma SweepExact(edges: seq<Edge>, target: string, d: nat, frontier: set<string>, ball: set<string>, w: Sweep)
    requires NoClashAt(edges, target, d)
    requires IsLevel(Upstream(edges), target, frontier, d) && IsBall(Upstream(edges), target, ball, d)
    requires Swept(ball, EdgesInto(edges, frontier), w)
    ensures ExactLevel(Upstream(edges), target, d + 1, Level(d + 1, w.nodes, w.transforms))
    ensures IsLevel(Upstream(edges), target, w.next, d + 1) && IsBall(Upstream(edges), target, w.visited, d + 1)
  {
    var U := Upstream(edges);
    SweepCovers(edges, target, d, frontier, ball, w);
    forall p ensures p in PairsIn(Members(w.transforms)) <==> p in U && Distance(U, target, p.0, d) {
      HopsIntoLevel(edges, frontier, p);
    }
    forall t ensures t in w.next <==> t !in ball && exists m :: m in frontier && (m, t) in U {
      NextIsExpansion(edges, frontier, w, t);
    }
    BallGrows(U, target, ball, frontier, w.next, d);
    assert Members(w.nodes) == w.next;
  }

  lemma HopsIntoLevel(edges: seq<Edge>, frontier: set<string>, p: Pair)
    ensures p in PairsIn(EdgesInto(edges, frontier)) <==> p in Upstream(edges) && p.0 in frontier
  {
    if p in Upstream(edges) && p.0 in frontier {
      var e :| e in edges && (e.dst, e.src) == p;
      assert e in EdgesInto(edges, frontier);
    }
  }

  lemma NextIsExpansion(edges: seq<Edge>, frontier: set<string>, w: Sweep, t: string)
    requires PairsIn(Members(w.transforms)) == PairsIn(EdgesInto(edges, frontier))
    ensures t in SourcesIn(Members(w.transforms)) <==> exists m :: m in frontier && (m, t) in Upstream(edges)
  {
    if t in SourcesIn(Members(w.transforms)) {
      var e :| e in Members(w.transforms) && e.src == t;
      assert PairOf(e) in PairsIn(Members(w.transforms));
      HopsIntoLevel(edges, frontier, PairOf(e));
      assert (e.dst, t) in Upstream(edges);
    }
    if m :| m in frontier && (m, t) in Upstream(edges) {
      HopsIntoLevel(edges, frontier, (m, t));
      var e :| e in Members(w.transforms) && PairOf(e) == (m, t);
    }
  }

  // ---------------------------------------------------------------------------
  // The whole response
  // ---------------------------------------------------------------------------

  function TotalTransforms(levels: seq<Level>): nat
  {
    if levels == [] then 0 else TotalTransforms(levels[..|levels| - 1]) + |levels[|levels| - 1].transforms|
  }

  /** The hops into the columns of `S`. */
  ghost function HopsInto(U: set<Pair>, S: set<string>): set<Pair>
  {
    set p | p in U && p.0 in S
  }

  /** Some level lists the column. */
  ghost predicate Listed(levels: seq<Level>, t: string)
  {
    exists d :: 0 <= d < |levels| && t in levels[d].nodes
  }

  /** The levels are exact, nothing within the depth limit is missing, and the totals are
      the numbers of columns and of hops within it. */
  ghost predicate ExactTrace(U: set<Pair>, target: string, depth: nat, r: Response)
  {
    && r.Traced? && |r.levels| > 0 && r.levels[0] == Level(0, [target], [])
    && r.maxDepthReached == |r.levels| - 1 <= depth
    && (forall d | 0 < d < |r.levels| :: ExactLevel(U, target, d, r.levels[d]))
    && exists ball, inner ::
         && IsBall(U, target, ball, depth)
         && (if depth > 0 then IsBall(U, target, inner, depth - 1) else inner == {})
         && (forall t | t in ball :: Listed(r.levels, t)) && |ball| == r.totalNodes
         && (forall p | p in HopsInto(U, inner) :: Recorded(r.levels, p)) && |HopsInto(U, inner)| == r.totalEdges
  }

  /** Some level records the hop. */
  ghost predicate Recorded(levels: seq<Level>, p: Pair)
  {
    exists d :: 0 < d < |levels| && p in PairsIn(Members(levels[d].transforms))
  }

  /** The state at the head of the depth loop, `d` levels having been searched. */
  ghost predicate Tracing(U: set<Pair>, target: string, d: nat, levels: seq<Level>, visited: set<string>, frontier: set<string>)
  {
    && 0 < |levels| <= d + 1 && levels[0] == Level(0, [target], [])
    && (frontier != {} ==> |levels| == d + 1)
    && IsBall(U, target, visited, d) && IsLevel(U, target, frontier, d)
    && (forall k | 0 < k < |levels| :: ExactLevel(U, target, k, levels[k]))
    && (forall t | t in visited :: Listed(levels, t))
    && (forall p | p in HopsInto(U, visited - frontier) :: Recorded(levels, p))
    && TotalTransforms(levels) == |HopsInto(U, visited - frontier)|
  }

  lemma TracingStarts(U: set<Pair>, target: string)
    ensures Tracing(U, target, 0, [Level(0, [target], [])], {target}, {target})
  {
    BallStarts(U, target);
    assert HopsInto(U, {target} - {target}) == {};
    assert Listed([Level(0, [target], [])], target) by {
      assert target in [Level(0, [target], [])][0].nodes;
    }
  }

  lemma LastPairIsNew(init: seq<Edge>, last: Edge)
    requires PairsDistinct(init + [last])
    ensures PairOf(last) !in PairsIn(Members(init)) && PairsDistinct(init)
  {
    var all := init + [last];
    assert all[|init|] == last;
    forall e | e in Members(init) ensures PairOf(e) != PairOf(last) {
      var i :| 0 <= i < |init| && init[i] == e;
      assert all[i] == e;
    }
    forall i, j | 0 <= i < j < |init| ensures PairOf(init[i]) != PairOf(init[j]) {
      assert all[i] == init[i] && all[j] == init[j];
    }
  }

  lemma {:induction false} DistinctPairs(transforms: seq<Edge>)
    requires PairsDistinct(transforms)
    ensures |PairsIn(Members(transforms))| == |transforms|
  {
    if transforms == [] {
      assert PairsIn(Members(transforms)) == {};
    } else {
      var init, last := transforms[..|transforms| - 1], transforms[|transforms| - 1];
      assert transforms == init + [last];
      LastPairIsNew(init, last);
      DistinctPairs(init);
      MembersAppend(init, last);
      assert PairsIn(Members(init) + {last}) == PairsIn(Members(init)) + {PairOf(last)};
    }
  }

  lemma HopsSplit(U: set<Pair>, A: set<string>, B: set<string>)
    requires A !! B
    ensures |HopsInto(U, A + B)| == |HopsInto(U, A)| + |HopsInto(U, B)|
  {
    assert HopsInto(U, A + B) == HopsInto(U, A) + HopsInto(U, B);
    assert HopsInto(U, A) !! HopsInto(U, B);
  }

  lemma FrontierInBall(U: set<Pair>, target: string, d: nat, ball: set<string>, frontier: set<string>)
    requires IsBall(U, target, ball, d) && IsLevel(U, target, frontier, d)
    ensures frontier <= ball
  {
    forall t | t in frontier ensures t in ball {
      assert Steps(U, target, t, d);
    }
  }

  /** The hops recorded by one sweep are the hops into the frontier. */
  lemma SweepCounts(edges: seq<Edge>, frontier: set<string>, w: Sweep)
    requires PairsDistinct(w.transforms) && PairsIn(Members(w.transforms)) == PairsIn(EdgesInto(edges, frontier))
    ensures |w.transforms| == |HopsInto(Upstream(edges), frontier)|
  {
    DistinctPairs(w.transforms);
    forall p ensures p in PairsIn(EdgesInto(edges, frontier)) <==> p in HopsInto(Upstream(edges), frontier) {
      HopsIntoLevel(edges, frontier, p);
    }
    assert PairsIn(EdgesInto(edges, frontier)) == HopsInto(Upstream(edges), frontier);
  }

  lemma ListedGrows(levels: seq<Level>, more: Level, ball: set<string>)
    requires forall t | t in ball :: Listed(levels, t)
    ensures forall t | t in ball || t in more.nodes :: Listed(levels + [more], t)
  {
    forall t | t in ball || t in more.nodes ensures Listed(levels + [more], t) {
      if t in ball {
        var d :| 0 <= d < |levels| && t in levels[d].nodes;
        assert t in (levels + [more])[d].nodes;
      } else {
        assert t in (levels + [more])[|levels|].nodes;
      }
    }
  }

  /** `levels.append(...)` unless the sweep found neither nodes nor hops. */
  function Append(levels: seq<Level>, d: nat, w: Sweep): seq<Level>
  {
    if w.nodes != [] || w.transforms != [] then levels + [Level(d, w.nodes, w.transforms)] else levels
  }

  lemma TotalsStep(edges: seq<Edge>, target: string, d: nat, levels: seq<Level>, frontier: set<string>, visited: set<string>, w: Sweep)
    requires IsBall(Upstream(edges), target, visited, d) && IsLevel(Upstream(edges), target, frontier, d)
    requires NoClashAt(edges, target, d) && Swept(visited, EdgesInto(edges, frontier), w)
    requires TotalTransforms(levels) == |HopsInto(Upstream(edges), visited - frontier)|
    ensures TotalTransforms(Append(levels, d + 1, w)) == |HopsInto(Upstream(edges), w.visited - w.next)|
  {
    var U := Upstream(edges);
    SweepCovers(edges, target, d, frontier, visited, w);
    SweepCounts(edges, frontier, w);
    FrontierInBall(U, target, d, visited, frontier);
    HopsSplit(U, visited - frontier, frontier);
    assert visited - frontier + frontier == visited == w.visited - w.next;
    AppendTotals(levels, d + 1, w);
  }

  lemma AppendTotals(levels: seq<Level>, d: nat, w: Sweep)
    ensures TotalTransforms(Append(levels, d, w)) == TotalTransforms(levels) + |w.transforms|
  {
    assert (levels + [Level(d, w.nodes, w.transforms)])[..|levels|] == levels;
  }

  lemma RecordedGrows(levels: seq<Level>, more: Level)
    requires levels != []
    ensures forall p :: Recorded(levels, p) || p in PairsIn(Members(more.transforms)) ==> Recorded(levels + [more], p)
  {
    forall p | Recorded(levels, p) || p in PairsIn(Members(more.transforms)) ensures Recorded(levels + [more], p) {
      if Recorded(levels, p) {
        var d :| 0 < d < |levels| && p in PairsIn(Members(levels[d].transforms));
        assert p in PairsIn(Members((levels + [more])[d].transforms));
      } else {
        assert p in PairsIn(Members((levels + [more])[|levels|].transforms));
      }
    }
  }

  lemma RecordedStep(edges: seq<Edge>, target: string, d: nat, levels: seq<Level>, frontier: set<string>,
                     visited: set<string>, w: Sweep)
    requires levels != [] && NoClashAt(edges, target, d) && IsLevel(Upstream(edges), target, frontier, d)
    requires Swept(visited, EdgesInto(edges, frontier), w)
    requires forall p | p in HopsInto(Upstream(edges), visited - frontier) :: Recorded(levels, p)
    ensures forall p | p in HopsInto(Upstream(edges), w.visited - w.next) :: Recorded(Append(levels, d + 1, w), p)
  {
    SweepCovers(edges, target, d, frontier, visited, w);
    var more := Level(d + 1, w.nodes, w.transforms);
    RecordedGrows(levels, more);
    forall p | p in HopsInto(Upstream(edges), w.visited - w.next) ensures Recorded(Append(levels, d + 1, w), p) {
      if p.0 in frontier {
        HopsIntoLevel(edges, frontier, p);
        assert p in PairsIn(Members(more.transforms));
        assert w.transforms != [];
      } else {
        assert p in HopsInto(Upstream(edges), visited - frontier);
      }
    }
  }

  lemma TracingStep(edges: seq<Edge>, target: string, d: nat, levels: seq<Level>, visited: set<string>,
                    frontier: set<string>, w: Sweep)
    requires Tracing(Upstream(edges), target, d, levels, visited, frontier) && frontier != {}
    requires NoClashAt(edges, target, d) && Swept(visited, EdgesInto(edges, frontier), w)
    ensures Tracing(Upstream(edges), target, d + 1, Append(levels, d + 1, w), w.visited, w.next)
  {
    SweepExact(edges, target, d, frontier, visited, w);
    TotalsStep(edges, target, d, levels, frontier, visited, w);
    RecordedStep(edges, target, d, levels, frontier, visited, w);
    ListedGrows(levels, Level(d + 1, w.nodes, w.transforms), visited);
    if w.nodes == [] {
      assert w.next == {} by {
        assert forall n :: n !in w.nodes;
      }
    }
  }

  lemma InnerBall(U: set<Pair>, target: string, d: nat, visited: set<string>, frontier: set<string>)
    requires d > 0 && IsBall(U, target, visited, d) && IsLevel(U, target, frontier, d)
    ensures IsBall(U, target, visited - frontier, d - 1)
  {
    forall t ensures t in visited - frontier <==> Within(U, target, t, d - 1) {
      WithinStep(U, target, t, d - 1);
    }
  }

  lemma TracingEnds(U: set<Pair>, target: string, d: nat, depth: nat, levels: seq<Level>, visited: set<string>, frontier: set<string>)
    requires Tracing(U, target, d, levels, visited, frontier) && d <= depth && (d == depth || (frontier == {} && d > 0))
    ensures ExactTrace(U, target, depth, Traced(levels, |visited|, TotalTransforms(levels), |levels| - 1))
  {
    Boundary(U, target, d, depth, visited, frontier);
  }

  lemma Boundary(U: set<Pair>, target: string, d: nat, depth: nat, visited: set<string>, frontier: set<string>)
    requires IsBall(U, target, visited, d) && IsLevel(U, target, frontier, d)
    requires d <= depth && (d == depth || (frontier == {} && d > 0))
    ensures IsBall(U, target, visited, depth)
    ensures if depth > 0 then IsBall(U, target, visited - frontier, depth - 1) else visited - frontier == {}
  {
    if d > 0 {
      InnerBall(U, target, d, visited, frontier);
    } else {
      FrontierInBall(U, target, d, visited, frontier);
      forall t | t in visited ensures t in frontier {
        assert Within(U, target, t, 0);
      }
    }
    if d < depth {
      BallStops(U, target, visited, d - 1, depth - 1);
      BallStops(U, target, visited, d - 1, depth);
      assert visited - frontier == visited;
    }
  }

  /** No hop key is repeated within a level. */
  ghost predicate KeysDistinctIn(levels: seq<Level>)
  {
    forall d | 0 <= d < |levels| :: KeysDistinct(levels[d].transforms)
  }

  /** The walk is as it should be unless a clash has spoiled it. */
  ghost predicate TracingIf(edges: seq<Edge>, target: string, depth: nat, d: nat, levels: seq<Level>, visited: set<string>,
                            frontier: set<string>)
  {
    NoClash(edges, target, depth) ==> Tracing(Upstream(edges), target, d, levels, visited, frontier)
  }

  lemma TracingStepIf(edges: seq<Edge>, target: string, d: nat, depth: nat, levels: seq<Level>, visited: set<string>,
                      frontier: set<string>, w: Sweep)
    requires d < depth && frontier != {} && Swept(visited, EdgesInto(edges, frontier), w)
    requires TracingIf(edges, target, depth, d, levels, visited, frontier)
    ensures TracingIf(edges, target, depth, d + 1, Append(levels, d + 1, w), w.visited, w.next)
  {
    if NoClash(edges, target, depth) {
      TracingStep(edges, target, d, levels, visited, frontier, w);
    }
  }

  lemma TracingEndsIf(edges: seq<Edge>, target: string, d: nat, depth: nat, levels: seq<Level>, visited: set<string>, frontier: set<string>)
    requires TracingIf(edges, target, depth, d, levels, visited, frontier) && |levels| > 0
    requires d <= depth && (d == depth || (frontier == {} && d > 0))
    ensures NoClash(edges, target, depth) ==>
              ExactTrace(Upstream(edges), target, depth, Traced(levels, |visited|, TotalTransforms(levels), |levels| - 1))
  {
    if NoClash(edges, target, depth) {
      TracingEnds(Upstream(edges), target, d, depth, levels, visited, frontier);
    }
  }

  lemma AppendKeys(levels: seq<Level>, d: nat, ball: set<string>, done: set<Edge>, w: Sweep)
    requires KeysDistinctIn(levels) && Swept(ball, done, w)
    ensures KeysDistinctIn(Append(levels, d, w))
  {
  }

  function Limit(maxDepth: int): nat
  {
    if maxDepth < 0 then 0 else maxDepth
  }

  ghost predicate LevelsRecordFirst(edges: seq<Edge>, levels: seq<Level>)
  {
    forall d | 0 <= d < |levels| :: FirstRows(edges, levels[d].transforms)
  }

  /** Every level above the target holds a hop. */
  ghost predicate NoEmptyLevel(levels: seq<Level>)
  {
    forall d | 0 < d < |levels| :: levels[d].transforms != []
  }

  lemma NodesHaveHops(ball: set<string>, done: set<Edge>, w: Sweep)
    requires Swept(ball, done, w) && w.nodes != []
    ensures w.transforms != []
  {
    assert w.nodes[0] in w.next;
  }

  lemma AppendRecordsFirst(edges: seq<Edge>, levels: seq<Level>, d: nat, ball: set<string>, done: set<Edge>, w: Sweep)
    requires LevelsRecordFirst(edges, levels) && NoEmptyLevel(levels) && FirstRows(edges, w.transforms) && Swept(ball, done, w)
    ensures LevelsRecordFirst(edges, Append(levels, d, w)) && NoEmptyLevel(Append(levels, d, w))
  {
    if w.nodes != [] {
      NodesHaveHops(ball, done, w);
    }
  }

  /** What the depth loop keeps. */
  ghost predicate Searching(edges: seq<Edge>, target: string, depth: nat, d: nat, levels: seq<Level>, visited: set<string>,
                            frontier: set<string>)
  {
    && d <= depth && |levels| > 0 && (d == 0 ==> frontier != {})
    && KeysDistinctIn(levels) && LevelsRecordFirst(edges, levels) && NoEmptyLevel(levels)
    && TracingIf(edges, target, depth, d, levels, visited, frontier)
  }

  lemma SearchingStarts(edges: seq<Edge>, target: string, depth: nat)
    ensures Searching(edges, target, depth, 0, [Level(0, [target], [])], {target}, {target})
  {
    TracingStarts(Upstream(edges), target);
  }

  lemma SearchingStep(edges: seq<Edge>, target: string, depth: nat, d: nat, levels: seq<Level>, visited: set<string>,
                      frontier: set<string>, w: Sweep)
    requires Searching(edges, target, depth, d, levels, visited, frontier) && d < depth && frontier != {}
    requires Swept(visited, EdgesInto(edges, frontier), w) && FirstRows(edges, w.transforms)
    ensures Searching(edges, target, depth, d + 1, Append(levels, d + 1, w), w.visited, w.next)
  {
    TracingStepIf(edges, target, d, depth, levels, visited, frontier, w);
    AppendRecordsFirst(edges, levels, d + 1, visited, EdgesInto(edges, frontier), w);
    AppendKeys(levels, d + 1, visited, EdgesInto(edges, frontier), w);
  }

  /** One turn of the depth loop. */
  method SearchDeeper(edges: seq<Edge>, idx: map<string, seq<Edge>>, target: string, ghost depth: nat, d: nat,
                      levels: seq<Level>, visited: set<string>, frontier: set<string>)
    returns (levels': seq<Level>, visited': set<string>, frontier': set<string>)
    requires Indexes(edges, idx) && Searching(edges, target, depth, d, levels, visited, frontier) && d < depth && frontier != {}
    ensures Searching(edges, target, depth, d + 1, levels', visited', frontier')
  {
    var w := SweepLevel(edges, idx, frontier, visited);
    SearchingStep(edges, target, depth, d, levels, visited, frontier, w);
    levels', visited', frontier' := Append(levels, d + 1, w), w.visited, w.next;
  }

  /** What the depth loop ends with. */
  ghost predicate TracedIf(edges: seq<Edge>, target: string, depth: nat, r: Response)
  {
    && r.Traced? && KeysDistinctIn(r.levels) && LevelsRecordFirst(edges, r.levels) && NoEmptyLevel(r.levels)
    && (NoClash(edges, target, depth) ==> ExactTrace(Upstream(edges), target, depth, r))
  }

  lemma SearchingEnds(edges: seq<Edge>, target: string, depth: nat, d: nat, levels: seq<Level>, visited: set<string>,
                      frontier: set<string>, r: Response)
    requires Searching(edges, target, depth, d, levels, visited, frontier) && (d == depth || frontier == {})
    requires r == Traced(levels, |visited|, TotalTransforms(levels), |levels| - 1)
    ensures TracedIf(edges, target, depth, r)
  {
    TracingEndsIf(edges, target, d, depth, levels, visited, frontier);
  }

  /** The depth loop. */
  method SearchDepths(edges: seq<Edge>, idx: map<string, seq<Edge>>, target: string, maxDepth: int)
    returns (levels: seq<Level>, visited: set<string>, frontier: set<string>, ghost d: nat)
    requires Indexes(edges, idx)
    ensures Searching(edges, target, Limit(maxDepth), d, levels, visited, frontier) && (d == Limit(maxDepth) || frontier == {})
  {
    levels, visited, frontier := [Level(0, [target], [])], {target}, {target};
    var depth: nat := 0;
    SearchingStarts(edges, target, Limit(maxDepth));
    while depth < maxDepth && frontier != {}
      invariant Searching(edges, target, Limit(maxDepth), depth, levels, visited, frontier)
      decreases maxDepth - depth
    {
      levels, visited, frontier := SearchDeeper(edges, idx, target, Limit(maxDepth), depth, levels, visited, frontier);
      depth := depth + 1;
    }
    d := depth;
  }

  /** The search and the totals of what it found. */
  method SearchLevels(edges: seq<Edge>, idx: map<string, seq<Edge>>, target: string, maxDepth: int) returns (r: Response)
    requires Indexes(edges, idx)
    ensures TracedIf(edges, target, Limit(maxDepth), r)
  {
    ghost var d;
    var levels, visited, frontier;
    levels, visited, frontier, d := SearchDepths(edges, idx, target, maxDepth);
    r := Traced(levels, |visited|, TotalTransforms(levels), |levels| - 1);
    SearchingEnds(edges, target, Limit(maxDepth), d, levels, visited, frontier, r);
  }

  /** Every hop into a column within the depth limit is on some level. */
  lemma HopIsRecorded(U: set<Pair>, target: string, depth: nat, r: Response, d: nat, p: Pair)
    requires ExactTrace(U, target, depth, r) && d < depth && p in U && Distance(U, target, p.0, d)
    ensures Recorded(r.levels, p)
  {
    var inner :| IsBall(U, target, inner, depth - 1) && forall q | q in HopsInto(U, inner) :: Recorded(r.levels, q);
    assert Within(U, target, p.0, depth - 1);
    assert p in HopsInto(U, inner);
  }

  /** The level that records the hop `e`, and where. */
  lemma RecordedIn(U: set<Pair>, target: string, depth: nat, r: Response, d: nat, e: Edge)
    requires ExactTrace(U, target, depth, r) && d < depth
    requires PairOf(e) in U && Distance(U, target, e.dst, d)
    ensures d + 1 < |r.levels| && PairOf(e) in PairsIn(Members(r.levels[d + 1].transforms))
  {
    HopIsRecorded(U, target, depth, r, d, PairOf(e));
    var k :| 0 < k < |r.levels| && PairOf(e) in PairsIn(Members(r.levels[k].transforms));
    assert ExactLevel(U, target, k, r.levels[k]);
    DistanceUnique(U, target, e.dst, d, k - 1);
  }

  lemma PairAt(transforms: seq<Edge>, p: Pair) returns (i: nat)
    requires p in PairsIn(Members(transforms))
    ensures i < |transforms| && PairOf(transforms[i]) == p
  {
    var f :| f in Members(transforms) && PairOf(f) == p;
    i :| 0 <= i < |transforms| && transforms[i] == f;
  }

  /** A clash on a level that is searched makes the result inexact: only one of the two hops
      is recorded. */
  lemma ExactNeedsNoClash(edges: seq<Edge>, target: string, depth: nat, r: Response)
    requires r.Traced? && KeysDistinctIn(r.levels)
    requires ExactTrace(Upstream(edges), target, depth, r)
    ensures NoClash(edges, target, depth)
  {
    var U := Upstream(edges);
    forall d: nat | d < depth ensures NoClashAt(edges, target, d) {
      forall e, f | e in edges && f in edges && KeyOf(e) == KeyOf(f)
                    && Distance(U, target, e.dst, d) && Distance(U, target, f.dst, d)
        ensures PairOf(e) == PairOf(f)
      {
        RecordedIn(U, target, depth, r, d, e);
        RecordedIn(U, target, depth, r, d, f);
        var i := PairAt(r.levels[d + 1].transforms, PairOf(e));
        var j := PairAt(r.levels[d + 1].transforms, PairOf(f));
        assert i == j;
      }
    }
  }

  /** The backtracking itself: for every list of captured edges, cyclic or repeated, the
      result is exact if and only if no two hops of one level share a key. */
  method BacktrackColumn(edges: seq<Edge>, target: string, maxDepth: int) returns (r: Response)
    ensures (forall e | e in edges :: e.dst != target) ==> r == Untraced(exists e :: e in edges && e.src == target)
    ensures (exists e :: e in edges && e.dst == target) ==>
              r.Traced? && (ExactTrace(Upstream(edges), target, Limit(maxDepth), r) <==> NoClash(edges, target, Limit(maxDepth)))
    ensures r.Traced? ==> LevelsRecordFirst(edges, r.levels) && NoEmptyLevel(r.levels)
  {
    if edges == [] {
      return Untraced(false);
    }
    var idx, sources := BuildIndex(edges);
    if target !in idx {
      assert target in sources <==> exists e :: e in Members(edges) && e.src == target;
      return Untraced(target in sources);
    }
    r := SearchLevels(edges, idx, target, maxDepth);
    if ExactTrace(Upstream(edges), target, Limit(maxDepth), r) {
      ExactNeedsNoClash(edges, target, Limit(maxDepth), r);
    }
  }

  /** The first separator of a key ends the source id when that id has none. */
  lemma KeyIsReadBack(e: Edge, f: Edge)
    requires '|' !in e.src && '|' !in f.src && KeyOf(e) == KeyOf(f)
    ensures PairOf(e) == PairOf(f)
  {
    var key := KeyOf(e);
    assert key[|e.src|] == '|' == key[|f.src|];
    assert forall i | 0 <= i < |e.src| :: key[i] == e.src[i];
    assert forall i | 0 <= i < |f.src| :: key[i] == f.src[i];
    assert |e.src| == |f.src|;
    assert e.src == key[..|e.src|] == f.src;
    assert e.dst == key[|e.src| + 1..] == f.dst;
  }

  /** Ids whose source part has no separator never clash. */
  lemma PlainIdsNeverClash(edges: seq<Edge>, target: string, depth: nat)
    requires forall e | e in edges :: '|' !in e.src
    ensures NoClash(edges, target, depth)
  {
    forall e, f | e in edges && f in edges && KeyOf(e) == KeyOf(f) ensures PairOf(e) == PairOf(f) {
      KeyIsReadBack(e, f);
    }
  }

  // Ids of columns with a bar in their names: "B|col:x::C" and "C" of table x feed "S", and
  // are fed by "A" and by "A|col:x::B".

  const FED := {"col:x::B|col:x::C", "col:x::C"}
  const CLASH :=
    [Edge("col:x::B|col:x::C", "col:x::S", ""), Edge("col:x::C", "col:x::S", ""),
     Edge("col:x::A", "col:x::B|col:x::C", ""), Edge("col:x::A|col:x::B", "col:x::C", "")]

  lemma ClashingKeys()
    ensures KeyOf(CLASH[2]) == KeyOf(CLASH[3]) && PairOf(CLASH[2]) != PairOf(CLASH[3])
  {
    assert KeyOf(CLASH[2]) == "col:x::A|col:x::B|col:x::C";
  }

  lemma ClashingEdges()
    ensures EdgesInto(CLASH, FED) == {CLASH[2], CLASH[3]}
  {
    assert CLASH[2].dst in FED && CLASH[3].dst in FED;
    assert CLASH[0].dst !in FED;
  }

  lemma ClashingLevel()
    ensures IsLevel(Upstream(CLASH), "col:x::S", FED, 1)
  {
    var U, S := Upstream(CLASH), "col:x::S";
    assert PairOf(CLASH[0]) in U && PairOf(CLASH[1]) in U;
    assert Steps(U, S, S, 0);
    assert |CLASH[2].dst| != |S| && CLASH[3].dst[7] != S[7];
    forall t ensures t in FED <==> Distance(U, S, t, 1) {
      if Distance(U, S, t, 1) {
        var m :| Steps(U, S, m, 0) && (m, t) in U;
        var i :| 0 <= i < |CLASH| && PairOf(CLASH[i]) == (m, t);
        assert m == S;
      }
    }
  }

  lemma TwoKeys(transforms: seq<Edge>)
    requires |transforms| >= 2 && KeysDistinct(transforms)
    ensures KeyOf(transforms[0]) != KeyOf(transforms[1])
  {
  }

  /** Of edges that all share one key, a sweep records exactly one. */
  lemma OneKeyOneHop(ball: set<string>, done: set<Edge>, w: Sweep, key: string)
    requires Swept(ball, done, w) && done != {} && forall e | e in done :: KeyOf(e) == key
    ensures |w.transforms| == 1 && w.transforms[0] in done && w.next == {w.transforms[0].src} - ball
  {
    var e :| e in done;
    assert key in KeysIn(done);
    var f :| f in Members(w.transforms) && KeyOf(f) == key;
    forall i | 0 <= i < |w.transforms| ensures w.transforms[i] in done && KeyOf(w.transforms[i]) == key {
      assert w.transforms[i] in Members(w.transforms);
    }
    if |w.transforms| >= 2 {
      TwoKeys(w.transforms);
    }
    assert Members(w.transforms) == {w.transforms[0]};
    assert SourcesIn(Members(w.transforms)) == {w.transforms[0].src};
  }

  /** When two different hops into a level share their key and are all there is, a sweep
      records exactly one of them, and misses the column that the other one comes from. */
  lemma ClashLosesOne(edges: seq<Edge>, target: string, d: nat, frontier: set<string>, e: Edge, f: Edge, ball: set<string>, w: Sweep)
    requires IsLevel(Upstream(edges), target, frontier, d) && EdgesInto(edges, frontier) == {e, f}
    requires KeyOf(e) == KeyOf(f) && PairOf(e) != PairOf(f) && Swept(ball, {e, f}, w)
    ensures !NoClash(edges, target, d + 1)
    ensures (w.transforms == [e] && w.next == {e.src} - ball) || (w.transforms == [f] && w.next == {f.src} - ball)
  {
    assert e in EdgesInto(edges, frontier) && f in EdgesInto(edges, frontier);
    assert Distance(Upstream(edges), target, e.dst, d) && Distance(Upstream(edges), target, f.dst, d);
    assert !NoClashAt(edges, target, d);
    OneKeyOneHop(ball, {e, f}, w, KeyOf(e));
  }

  /** So it is on the second level above "S", however that level is swept. */
  lemma ClashLosesHop(ball: set<string>, w: Sweep)
    requires Swept(ball, EdgesInto(CLASH, FED), w)
    ensures IsLevel(Upstream(CLASH), "col:x::S", FED, 1) && !NoClash(CLASH, "col:x::S", 2)
    ensures (w.transforms == [CLASH[2]] && w.next == {CLASH[2].src} - ball) || (w.transforms == [CLASH[3]] && w.next == {CLASH[3].src} - ball)
  {
    ClashingKeys();
    ClashingEdges();
    ClashingLevel();
    ClashLosesOne(CLASH, "col:x::S", 1, FED, CLASH[2], CLASH[3], ball, w);
  }
}
