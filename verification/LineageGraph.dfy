/**
 Graphs of tables and of the jobs and pipelines ("entities") that move data between
 them, and the collapse of such a graph to its tables (backend/excel_export.py,
 `_collapse_edges`).
 */
module LineageGraph {
  import opened Graphs
  import opened Sequences

  /** A node id; the source tells the two kinds apart by the prefix "entity:". */
  datatype Node = Table(ref: string) | Entity(key: string)

  type Edges = set<(Node, Node)>

  /** Entities are never joined directly. */
  ghost predicate NoEntityToEntity(E: Edges)
  {
    forall e | e in E :: e.0.Table? || e.1.Table?
  }

  /** `a` feeds `b` directly or through one entity. */
  ghost predicate Flows(E: Edges, a: Node, b: Node)
  {
    a.Table? && b.Table? && ((a, b) in E || exists k: string :: (a, Entity(k)) in E && (Entity(k), b) in E)
  }

  /** `F` relates exactly the tables one of which feeds the other. */
  ghost predicate Contracts(E: Edges, F: Edges)
  {
    forall e :: e in F <==> Flows(E, e.0, e.1)
  }

  // ---------------------------------------------------------------------------
  // Contraction keeps reachability and cycles
  // ---------------------------------------------------------------------------

  lemma {:induction false} ContractWalk(E: Edges, F: Edges, a: Node, b: Node, n: nat) returns (m: nat)
    requires NoEntityToEntity(E) && Contracts(E, F)
    requires a.Table? && b.Table? && Steps(E, a, b, n)
    ensures Steps(F, a, b, m) && (n > 0 ==> m > 0)
    decreases n
  {
    if n == 0 {
      m := 0;
    } else {
      var p :| Steps(E, a, p, n - 1) && (p, b) in E;
      if p.Table? {
        m := ContractWalk(E, F, a, p, n - 1);
        assert Flows(E, p, b);
        m := m + 1;
      } else {
        var q :| Steps(E, a, q, n - 2) && (q, p) in E;
        m := ContractWalk(E, F, a, q, n - 2);
        assert (q, Entity(p.key)) in E && (Entity(p.key), b) in E;
        assert Flows(E, q, b);
        m := m + 1;
      }
    }
  }

  lemma {:induction false} ExpandWalk(E: Edges, F: Edges, a: Node, b: Node, m: nat) returns (n: nat)
    requires Contracts(E, F) && Steps(F, a, b, m)
    ensures Steps(E, a, b, n) && n >= m
    decreases m
  {
    if m == 0 {
      n := 0;
    } else {
      var p :| Steps(F, a, p, m - 1) && (p, b) in F;
      n := ExpandWalk(E, F, a, p, m - 1);
      assert Flows(E, p, b);
      if (p, b) in E {
        n := n + 1;
      } else {
        var k: string :| (p, Entity(k)) in E && (Entity(k), b) in E;
        assert Steps(E, a, Entity(k), n + 1);
        n := n + 2;
      }
    }
  }

  /** A table reaches another in the graph exactly when it does in the contraction. */
  lemma ContractionKeepsReach(E: Edges, F: Edges, a: Node, b: Node)
    requires NoEntityToEntity(E) && Contracts(E, F) && a.Table? && b.Table?
    ensures Reach(E, a, b) <==> Reach(F, a, b)
  {
    if Reach(E, a, b) {
      var n: nat :| Steps(E, a, b, n);
      var m := ContractWalk(E, F, a, b, n);
    }
    if Reach(F, a, b) {
      var m: nat :| Steps(F, a, b, m);
      var n := ExpandWalk(E, F, a, b, m);
    }
  }

  /** The graph has a cycle exactly when its contraction has one. */
  lemma ContractionKeepsCycles(E: Edges, F: Edges)
    requires NoEntityToEntity(E) && Contracts(E, F)
    ensures Acyclic(E) <==> Acyclic(F)
  {
    if !Acyclic(E) {
      var s, n: nat :| Steps(E, s, s, n) && n != 0;
      var t := s;
      if s.Entity? {
        t := StepsFirst(E, s, s, n);
        assert Steps(E, t, t, n);
      }
      var m := ContractWalk(E, F, t, t, n);
      assert Steps(F, t, t, m) && m != 0;
    }
    if !Acyclic(F) {
      var s, m: nat :| Steps(F, s, s, m) && m != 0;
      var n := ExpandWalk(E, F, s, s, m);
      assert Steps(E, s, s, n) && n != 0;
    }
  }

  // ---------------------------------------------------------------------------
  // `_collapse_edges`
  // ---------------------------------------------------------------------------

  /** The output: each feeding pair of distinct tables, once. */
  ghost predicate IsCollapse(E: Edges, out: seq<(Node, Node)>)
  {
    && (forall i, j | 0 <= i < j < |out| :: out[i] != out[j])
    && (forall e :: e in out <==> Flows(E, e.0, e.1) && e.0 != e.1)
  }

  /** The grouping by entity: who feeds it and what it feeds. */
  ghost predicate Groups(E: Edges, feeds: map<string, set<Node>>, fed: map<string, set<Node>>)
  {
    && (forall k, n :: k in feeds && n in feeds[k] <==> (n, Entity(k)) in E && n.Table?)
    && (forall k, n :: k in fed && n in fed[k] <==> (Entity(k), n) in E && n.Table?)
  }

  function Into(m: map<string, set<Node>>, k: string, n: Node): map<string, set<Node>>
  {
    m[k := (if k in m then m[k] else {}) + {n}]
  }

  /** `add(s, t)`: append unless it is a self-loop or already there. */
  function Push(out: seq<(Node, Node)>, e: (Node, Node)): seq<(Node, Node)>
  {
    if e.0 == e.1 || e in out then out else out + [e]
  }

  /** `out` has no repetition and holds exactly the pairs of `S` that are no self-loops. */
  ghost predicate Gathers(out: seq<(Node, Node)>, S: Edges)
  {
    && (forall i, j | 0 <= i < j < |out| :: out[i] != out[j])
    && (forall e :: e in out <==> e in S && e.0 != e.1)
  }

  lemma PushGathers(out: seq<(Node, Node)>, S: Edges, e: (Node, Node))
    requires Gathers(out, S)
    ensures Gathers(Push(out, e), S + {e})
  {
  }

  function DirectPart(E: Edges): Edges
  {
    set e | e in E && e.0.Table? && e.1.Table?
  }

  lemma DirectStep(E: Edges, e: (Node, Node))
    ensures DirectPart(E + {e}) == if e.0.Table? && e.1.Table? then DirectPart(E) + {e} else DirectPart(E)
  {
  }

  /** One more edge, added to the group it belongs to. */
  lemma GroupsStep(E: Edges, feeds: map<string, set<Node>>, fed: map<string, set<Node>>, e: (Node, Node))
    requires Groups(E, feeds, fed)
    ensures e.0.Table? && e.1.Entity? ==> Groups(E + {e}, Into(feeds, e.1.key, e.0), fed)
    ensures e.0.Entity? && e.1.Table? ==> Groups(E + {e}, feeds, Into(fed, e.0.key, e.1))
    ensures e.0.Table? == e.1.Table? ==> Groups(E + {e}, feeds, fed)
  {
    assert e == (e.0, e.1);
    assert e.0.Entity? ==> e.0 == Entity(e.0.key);
    assert e.1.Entity? ==> e.1 == Entity(e.1.key);
    forall k: string, n: Node ensures (n, Entity(k)) in E + {e} <==> (n, Entity(k)) in E || (n == e.0 && e.1 == Entity(k)) {
    }
    forall k: string, n: Node ensures (Entity(k), n) in E + {e} <==> (Entity(k), n) in E || (n == e.1 && e.0 == Entity(k)) {
    }
  }

  /** The direct edges of the list, and the grouping of the others. */
  method SortEdges(edges: seq<(Node, Node)>)
    returns (out: seq<(Node, Node)>, feeds: map<string, set<Node>>, fed: map<string, set<Node>>)
    ensures Groups(Prefix(edges, |edges|), feeds, fed)
    ensures Gathers(out, DirectPart(Prefix(edges, |edges|)))
  {
    out, feeds, fed := [], map[], map[];
    for i := 0 to |edges|
      invariant Groups(Prefix(edges, i), feeds, fed) && Gathers(out, DirectPart(Prefix(edges, i)))
    {
      var e := edges[i];
      PrefixStep(edges, i);
      DirectStep(Prefix(edges, i), e);
      GroupsStep(Prefix(edges, i), feeds, fed, e);
      if e.0.Table? && e.1.Table? {
        PushGathers(out, DirectPart(Prefix(edges, i)), e);
        out := Push(out, e);
      } else if e.0.Table? && e.1.Entity? {
        feeds := Into(feeds, e.1.key, e.0);
      } else if e.0.Entity? && e.1.Table? {
        fed := Into(fed, e.0.key, e.1);
      }
    }
  }

  function Product(A: set<Node>, B: set<Node>): Edges
  {
    set s, t | s in A && t in B :: (s, t)
  }

  /** `for t in targets: for s in sources: add(s, t)`. */
  method PushProduct(out0: seq<(Node, Node)>, ghost S: Edges, sources: set<Node>, targets: set<Node>)
    returns (out: seq<(Node, Node)>)
    requires Gathers(out0, S)
    ensures Gathers(out, S + Product(sources, targets))
  {
    out := out0;
    var ts := targets;
    assert S + Product(sources, targets - ts) == S;
    while ts != {}
      invariant ts <= targets && Gathers(out, S + Product(sources, targets - ts))
    {
      var t :| t in ts;
      ghost var S' := S + Product(sources, targets - ts);
      var ss := sources;
      assert S' + Product(sources - ss, {t}) == S';
      while ss != {}
        invariant ss <= sources && Gathers(out, S' + Product(sources - ss, {t}))
      {
        var s :| s in ss;
        PushGathers(out, S' + Product(sources - ss, {t}), (s, t));
        assert S' + Product(sources - ss, {t}) + {(s, t)} == S' + Product(sources - (ss - {s}), {t});
        out := Push(out, (s, t));
        ss := ss - {s};
      }
      assert S' + Product(sources - {}, {t}) == S + Product(sources, targets - (ts - {t}));
      ts := ts - {t};
    }
    assert targets - {} == targets;
  }

  /** The pairs that the entities in `K` mediate. */
  ghost predicate Mediated(feeds: map<string, set<Node>>, fed: map<string, set<Node>>, K: set<string>, S: Edges)
  {
    forall e :: e in S <==> exists k :: k in K && k in feeds && k in fed && e.0 in feeds[k] && e.1 in fed[k]
  }

  lemma MediateOne(feeds: map<string, set<Node>>, fed: map<string, set<Node>>, K: set<string>, S: Edges, k: string)
    requires Mediated(feeds, fed, K, S) && k in feeds
    ensures Mediated(feeds, fed, K + {k}, S + Product(feeds[k], if k in fed then fed[k] else {}))
  {
    var S' := S + Product(feeds[k], if k in fed then fed[k] else {});
    forall e
      ensures e in S' <==> exists j :: j in K + {k} && j in feeds && j in fed && e.0 in feeds[j] && e.1 in fed[j]
    {
      if e in S {
        var j :| j in K && j in feeds && j in fed && e.0 in feeds[j] && e.1 in fed[j];
        assert j in K + {k};
      } else if e in S' {
        assert k in K + {k} && k in fed && e.0 in feeds[k] && e.1 in fed[k];
      }
    }
  }

  /** Everything collected is what the definition of a flow asks for. */
  lemma CollapseDone(E: Edges, feeds: map<string, set<Node>>, fed: map<string, set<Node>>, S: Edges, out: seq<(Node, Node)>)
    requires Groups(E, feeds, fed) && Mediated(feeds, fed, feeds.Keys, S) && Gathers(out, DirectPart(E) + S)
    ensures IsCollapse(E, out)
  {
    forall e ensures e in DirectPart(E) + S <==> Flows(E, e.0, e.1) {
      if e in S {
        var k :| k in feeds.Keys && k in feeds && k in fed && e.0 in feeds[k] && e.1 in fed[k];
        assert (e.0, Entity(k)) in E && (Entity(k), e.1) in E;
      }
      if Flows(E, e.0, e.1) && e !in DirectPart(E) {
        var k: string :| (e.0, Entity(k)) in E && (Entity(k), e.1) in E;
        assert k in feeds && e.0 in feeds[k] && k in fed && e.1 in fed[k];
      }
    }
  }

  /** `_collapse_edges`. */
  method CollapseEdges(edges: seq<(Node, Node)>) returns (out: seq<(Node, Node)>)
    ensures IsCollapse(Prefix(edges, |edges|), out)
  {
    var feeds, fed;
    out, feeds, fed := SortEdges(edges);
    ghost var E := Prefix(edges, |edges|);
    ghost var S: Edges := {};
    var todo := feeds.Keys;
    assert DirectPart(E) + S == DirectPart(E);
    while todo != {}
      invariant todo <= feeds.Keys
      invariant Mediated(feeds, fed, feeds.Keys - todo, S) && Gathers(out, DirectPart(E) + S)
    {
      var k :| k in todo;
      var targets := if k in fed then fed[k] else {};
      MediateOne(feeds, fed, feeds.Keys - todo, S, k);
      assert feeds.Keys - todo + {k} == feeds.Keys - (todo - {k});
      out := PushProduct(out, DirectPart(E) + S, feeds[k], targets);
      assert DirectPart(E) + S + Product(feeds[k], targets) == DirectPart(E) + (S + Product(feeds[k], targets));
      S := S + Product(feeds[k], targets);
      todo := todo - {k};
    }
    assert feeds.Keys - {} == feeds.Keys;
    CollapseDone(E, feeds, fed, S, out);
  }

  /** Self-loops carry nothing between distinct nodes. */
  lemma {:induction false} SkipSelfLoops(F: Edges, G: Edges, a: Node, b: Node, n: nat)
    requires (forall e | e in F && e.0 != e.1 :: e in G) && Steps(F, a, b, n)
    ensures Reach(G, a, b)
    decreases n
  {
    if n == 0 {
      ReachReflexive(G, a);
    } else {
      var m :| Steps(F, a, m, n - 1) && (m, b) in F;
      SkipSelfLoops(F, G, a, m, n - 1);
      if m != b {
        EdgeReach(G, m, b);
        ReachTransitive(G, a, m, b);
      }
    }
  }

  ghost function Contraction(E: Edges): (F: Edges)
    ensures Contracts(E, F)
  {
    var pairs := set e, f | e in E && f in E && e.1 == f.0 && e.1.Entity? && e.0.Table? && f.1.Table? :: (e.0, f.1);
    assert forall e | e in E && e.1.Entity? :: e.1 == Entity(e.1.key);
    var F := DirectPart(E) + pairs;
    assert forall e: (Node, Node) :: Flows(E, e.0, e.1) ==> e in F by {
      forall e: (Node, Node) | Flows(E, e.0, e.1) ensures e in F {
        if e !in E {
          var k: string :| (e.0, Entity(k)) in E && (Entity(k), e.1) in E;
          assert (e.0, e.1) in pairs;
        }
      }
    }
    F
  }

  /** Collapsing keeps reachability between distinct tables: nothing is ever added, and
      nothing is lost as long as no entity feeds an entity directly. */
  lemma CollapseKeepsReach(E: Edges, out: seq<(Node, Node)>, a: Node, b: Node)
    requires IsCollapse(E, out) && a.Table? && b.Table?
    ensures Reach(Prefix(out, |out|), a, b) ==> Reach(E, a, b)
    ensures NoEntityToEntity(E) ==> (Reach(E, a, b) <==> Reach(Prefix(out, |out|), a, b))
  {
    var F, G := Contraction(E), Prefix(out, |out|);
    if Reach(G, a, b) {
      ReachMonotone(G, F, a, b);
      var m: nat :| Steps(F, a, b, m);
      var n := ExpandWalk(E, F, a, b, m);
    }
    if NoEntityToEntity(E) && Reach(E, a, b) {
      ContractionKeepsReach(E, F, a, b);
      var n: nat :| Steps(F, a, b, n);
      SkipSelfLoops(F, G, a, b, n);
    }
  }

  /** a -> job j -> job k -> b. */
  function Chain(): Edges
  {
    {(Table("a"), Entity("j")), (Entity("j"), Entity("k")), (Entity("k"), Table("b"))}
  }

  lemma NothingFlows(e: (Node, Node))
    ensures !Flows(Chain(), e.0, e.1)
  {
  }

  /** With an edge between two entities the collapse can lose a connection. */
  lemma EntityChainIsLost(out: seq<(Node, Node)>)
    requires IsCollapse(Chain(), out)
    ensures Reach(Chain(), Table("a"), Table("b")) && !Reach(Prefix(out, |out|), Table("a"), Table("b"))
  {
    var E := Chain();
    EdgeReach(E, Table("a"), Entity("j"));
    EdgeReach(E, Entity("j"), Entity("k"));
    EdgeReach(E, Entity("k"), Table("b"));
    ReachTransitive(E, Table("a"), Entity("j"), Entity("k"));
    ReachTransitive(E, Table("a"), Entity("k"), Table("b"));
    forall e ensures e !in out {
      NothingFlows(e);
    }
    PrefixAll(out);
    assert Prefix(out, |out|) == {};
    forall n: nat ensures !Steps({}, Table("a"), Table("b"), n) {
    }
  }
}
