/**
 From lineage rows to the graph the application shows: the one-pass builder of the
 trace and the add-discard-add builder of the schema view (backend/lineage_service.py,
 `_build_graph_from_rows`, `_fetch_table_lineage`, `_classify_table_nodes`).
 */
module TraceGraph {
  import opened Graphs
  import opened LineageGraph
  import opened Sequences
  import opened Wrappers

  /** A lineage row with its two references parsed; `entity` is the entity key of a row
      that names a producer (type and id both present). */
  datatype Row = Row(src: Option<string>, tgt: Option<string>, entity: Option<string>)

  /** The tables entity `k` reads and writes, taken over all its rows. */
  ghost function Sources(rows: set<Row>, k: string): set<string>
  {
    set r | r in rows && r.entity == Some(k) && r.src.Some? :: r.src.value
  }

  ghost function Targets(rows: set<Row>, k: string): set<string>
  {
    set r | r in rows && r.entity == Some(k) && r.tgt.Some? :: r.tgt.value
  }

  /** The edges one row draws, given the tables its entity writes: a table the entity
      writes is never drawn as feeding it, its read-after-write becomes a direct edge. */
  function Drawn(r: Row, written: set<string>): Edges
  {
    if r.entity.None? then
      if r.src.Some? && r.tgt.Some? then {(Table(r.src.value), Table(r.tgt.value))} else {}
    else
      var k := Entity(r.entity.value);
      (if r.tgt.Some? then {(k, Table(r.tgt.value))} else {})
      + (if r.src.None? then {}
         else if r.src.value !in written then {(Table(r.src.value), k)}
         else if r.tgt.Some? then {(Table(r.src.value), Table(r.tgt.value))}
         else {})
  }

  ghost function WrittenBy(rows: set<Row>, entity: Option<string>): set<string>
  {
    if entity.Some? then Targets(rows, entity.value) else {}
  }

  /** `E` is the edge set the trace builder draws for `rows`. */
  ghost predicate Draws(rows: set<Row>, E: Edges)
  {
    forall e :: e in E <==> DrawnByRow(rows, rows, e)
  }

  /** One of the rows in `some` draws `e`; `all` decides what an entity writes. */
  ghost predicate DrawnByRow(all: set<Row>, some: set<Row>, e: (Node, Node))
  {
    exists r :: r in some && e in Drawn(r, WrittenBy(all, r.entity))
  }

  // ---------------------------------------------------------------------------
  // The builder
  // ---------------------------------------------------------------------------

  datatype Info = Info(sources: set<string>, targets: set<string>)

  ghost predicate Gathered(rows: set<Row>, infos: map<string, Info>)
  {
    forall k: string :: GatheredFor(rows, infos, k)
  }

  ghost predicate TablesOf(rows: set<Row>, tables: set<string>)
  {
    forall t :: t in tables <==> exists r :: r in rows && (r.src == Some(t) || r.tgt == Some(t))
  }

  function Just(o: Option<string>): set<string>
  {
    if o.Some? then {o.value} else {}
  }

  /** Records what row `r` says about its entity, if it has one. */
  function Note(infos: map<string, Info>, r: Row): map<string, Info>
  {
    if r.entity.None? then infos
    else
      var k := r.entity.value;
      var info := if k in infos then infos[k] else Info({}, {});
      infos[k := Info(info.sources + Just(r.src), info.targets + Just(r.tgt))]
  }

  lemma SourcesStep(rows: set<Row>, r: Row, k: string)
    ensures Sources(rows + {r}, k) == Sources(rows, k) + (if r.entity == Some(k) then Just(r.src) else {})
    ensures Targets(rows + {r}, k) == Targets(rows, k) + (if r.entity == Some(k) then Just(r.tgt) else {})
  {
  }

  /** Entity `k` has a row. */
  ghost predicate Named(rows: set<Row>, k: string)
  {
    exists r :: r in rows && r.entity == Some(k)
  }

  lemma NamedStep(rows: set<Row>, r: Row, k: string)
    ensures Named(rows + {r}, k) <==> Named(rows, k) || r.entity == Some(k)
  {
    assert r in rows + {r};
    if Named(rows, k) {
      var q :| q in rows && q.entity == Some(k);
      assert q in rows + {r};
    }
  }

  lemma UnnamedIsEmpty(rows: set<Row>, k: string)
    requires !Named(rows, k)
    ensures Sources(rows, k) == {} && Targets(rows, k) == {}
  {
  }

  ghost predicate GatheredFor(rows: set<Row>, infos: map<string, Info>, k: string)
  {
    (k in infos <==> Named(rows, k)) && (k in infos ==> infos[k] == Info(Sources(rows, k), Targets(rows, k)))
  }

  lemma NoteGathers(rows: set<Row>, infos: map<string, Info>, r: Row)
    requires Gathered(rows, infos)
    ensures Gathered(rows + {r}, Note(infos, r))
  {
    var infos' := Note(infos, r);
    forall k: string ensures GatheredFor(rows + {r}, infos', k) {
      assert GatheredFor(rows, infos, k);
      NamedStep(rows, r, k);
      SourcesStep(rows, r, k);
      if k !in infos {
        UnnamedIsEmpty(rows, k);
      }
    }
  }

  lemma TablesStep(rows: set<Row>, tables: set<string>, r: Row)
    requires TablesOf(rows, tables)
    ensures TablesOf(rows + {r}, tables + Just(r.src) + Just(r.tgt))
  {
    forall t: string
      ensures t in tables + Just(r.src) + Just(r.tgt) <==> exists q :: q in rows + {r} && (q.src == Some(t) || q.tgt == Some(t))
    {
      assert r in rows + {r};
      if q :| q in rows && (q.src == Some(t) || q.tgt == Some(t)) {
        assert q in rows + {r};
      }
    }
  }

  lemma NothingYet(rows: set<Row>)
    requires rows == {}
    ensures Gathered(rows, map[]) && TablesOf(rows, {})
  {
  }

  /** The first loop: table nodes, and per entity what it reads and writes. */
  method GatherEntities(rows: seq<Row>) returns (tables: set<string>, infos: map<string, Info>)
    ensures Gathered(Prefix(rows, |rows|), infos) && TablesOf(Prefix(rows, |rows|), tables)
  {
    tables, infos := {}, map[];
    NothingYet(Prefix(rows, 0));
    for i := 0 to |rows|
      invariant Gathered(Prefix(rows, i), infos) && TablesOf(Prefix(rows, i), tables)
    {
      var r := rows[i];
      PrefixStep(rows, i);
      NoteGathers(Prefix(rows, i), infos, r);
      TablesStep(Prefix(rows, i), tables, r);
      tables := tables + Just(r.src) + Just(r.tgt);
      infos := Note(infos, r);
    }
  }

  lemma DrawnStep(all: set<Row>, some: set<Row>, E: Edges, r: Row)
    requires DrawnUpTo(all, some, E)
    ensures DrawnUpTo(all, some + {r}, E + Drawn(r, WrittenBy(all, r.entity)))
  {
    forall e ensures e in E + Drawn(r, WrittenBy(all, r.entity)) <==> DrawnByRow(all, some + {r}, e) {
      if DrawnByRow(all, some, e) {
        var q :| q in some && e in Drawn(q, WrittenBy(all, q.entity));
        assert q in some + {r};
      }
      assert r in some + {r};
    }
  }

  /** The edges of one row. */
  method DrawRow(r: Row, written: set<string>, edges0: Edges) returns (edges: Edges)
    ensures edges == edges0 + Drawn(r, written)
  {
    edges := edges0;
    if r.entity.Some? {
      var k := Entity(r.entity.value);
      if r.tgt.Some? {
        edges := edges + {(k, Table(r.tgt.value))};
      }
      if r.src.Some? {
        if r.src.value in written {
          if r.tgt.Some? {
            edges := edges + {(Table(r.src.value), Table(r.tgt.value))};
          }
        } else {
          edges := edges + {(Table(r.src.value), k)};
        }
      }
    } else if r.src.Some? && r.tgt.Some? {
      edges := edges + {(Table(r.src.value), Table(r.tgt.value))};
    }
  }

  /** The pairs of distinct tables that the first `n` rows record. */
  ghost predicate PairsOf(rows: seq<Row>, n: nat, pairs: set<(string, string)>)
    requires n <= |rows|
  {
    forall p :: p in pairs <==> p.0 != p.1 && exists j :: 0 <= j < n && rows[j].src == Some(p.0) && rows[j].tgt == Some(p.1)
  }

  function PairOf(r: Row): set<(string, string)>
  {
    if r.src.Some? && r.tgt.Some? && r.src.value != r.tgt.value then {(r.src.value, r.tgt.value)} else {}
  }

  lemma PairsStep(rows: seq<Row>, n: nat, pairs: set<(string, string)>)
    requires n < |rows| && PairsOf(rows, n, pairs)
    ensures PairsOf(rows, n + 1, pairs + PairOf(rows[n]))
  {
  }

  /** The edges drawn by the rows in `some`. */
  ghost predicate DrawnUpTo(all: set<Row>, some: set<Row>, E: Edges)
  {
    forall e :: e in E <==> DrawnByRow(all, some, e)
  }

  lemma WrittenIsTargets(all: set<Row>, infos: map<string, Info>, r: Row)
    requires Gathered(all, infos) && r in all && r.entity.Some?
    ensures r.entity.value in infos && infos[r.entity.value].targets == WrittenBy(all, r.entity)
  {
    assert GatheredFor(all, infos, r.entity.value);
  }

  /** The second loop: edges, and the precise table pairs. */
  method DrawEdges(rows: seq<Row>, infos: map<string, Info>) returns (edges: Edges, pairs: set<(string, string)>)
    requires Gathered(Prefix(rows, |rows|), infos)
    ensures Draws(Prefix(rows, |rows|), edges) && PairsOf(rows, |rows|, pairs)
  {
    ghost var all := Prefix(rows, |rows|);
    edges, pairs := {}, {};
    for i := 0 to |rows|
      invariant DrawnUpTo(all, Prefix(rows, i), edges) && PairsOf(rows, i, pairs)
    {
      var r := rows[i];
      PrefixStep(rows, i);
      PairsStep(rows, i, pairs);
      DrawnStep(all, Prefix(rows, i), edges, r);
      if r.src.Some? && r.tgt.Some? && r.src.value != r.tgt.value {
        pairs := pairs + {(r.src.value, r.tgt.value)};
      }
      var written := {};
      if r.entity.Some? {
        WrittenIsTargets(all, infos, r);
        written := infos[r.entity.value].targets;
      }
      edges := DrawRow(r, written, edges);
    }
  }

  /** The nodes and edges of the trace graph. */
  method BuildGraph(rows: seq<Row>)
    returns (tables: set<string>, entities: map<string, Info>, edges: Edges, pairs: set<(string, string)>)
    ensures TablesOf(Prefix(rows, |rows|), tables) && Gathered(Prefix(rows, |rows|), entities)
    ensures Draws(Prefix(rows, |rows|), edges) && PairsOf(rows, |rows|, pairs)
  {
    tables, entities := GatherEntities(rows);
    edges, pairs := DrawEdges(rows, entities);
  }

  // ---------------------------------------------------------------------------
  // What the edges mean
  // ---------------------------------------------------------------------------

  /** Some row moves `s` to `t` and is drawn directly: it has no entity, or its entity
      also writes `s`. */
  ghost predicate Direct(rows: set<Row>, s: string, t: string)
  {
    exists r :: r in rows && r.src == Some(s) && r.tgt == Some(t)
                && (r.entity.None? || s in Targets(rows, r.entity.value))
  }

  ghost predicate EdgeMeaning(rows: set<Row>, e: (Node, Node))
  {
    match e
    case (Entity(k), Table(t)) => t in Targets(rows, k)
    case (Table(s), Entity(k)) => s in Sources(rows, k) && s !in Targets(rows, k)
    case (Table(s), Table(t)) => Direct(rows, s, t)
    case (Entity(_), Entity(_)) => false
  }

  /** An entity points at exactly the tables it writes; a table points at exactly the
      entities that read it without writing it; two tables are joined exactly by the rows
      without an entity and by the read-after-writes. */
  lemma EdgeMeans(rows: set<Row>, E: Edges, e: (Node, Node))
    requires Draws(rows, E)
    ensures e in E <==> EdgeMeaning(rows, e)
  {
    assert e in E <==> DrawnByRow(rows, rows, e);
    if DrawnByRow(rows, rows, e) {
      var r :| r in rows && e in Drawn(r, WrittenBy(rows, r.entity));
    }
    if EdgeMeaning(rows, e) {
      match e
      case (Entity(k), Table(t)) =>
        var r :| r in rows && r.entity == Some(k) && r.tgt.Some? && r.tgt.value == t;
        assert e in Drawn(r, WrittenBy(rows, r.entity));
      case (Table(s), Entity(k)) =>
        var r :| r in rows && r.entity == Some(k) && r.src.Some? && r.src.value == s;
        assert e in Drawn(r, WrittenBy(rows, r.entity));
      case (Table(s), Table(t)) =>
        var r :| r in rows && r.src == Some(s) && r.tgt == Some(t)
                 && (r.entity.None? || s in Targets(rows, r.entity.value));
        assert e in Drawn(r, WrittenBy(rows, r.entity));
    }
  }

  /** No table and entity point at each other, and entities are never joined directly. */
  lemma NoTwoCycles(rows: set<Row>, E: Edges, t: string, k: string)
    requires Draws(rows, E)
    ensures !((Table(t), Entity(k)) in E && (Entity(k), Table(t)) in E)
    ensures NoEntityToEntity(E)
  {
    EdgeMeans(rows, E, (Table(t), Entity(k)));
    EdgeMeans(rows, E, (Entity(k), Table(t)));
    forall e | e in E ensures e.0.Table? || e.1.Table? {
      EdgeMeans(rows, E, e);
    }
  }

  /** The two ends of a recorded row are joined by one edge, or by two through the entity. */
  lemma RowIsConnected(rows: set<Row>, E: Edges, r: Row)
    requires Draws(rows, E) && r in rows && r.src.Some? && r.tgt.Some?
    ensures Steps(E, Table(r.src.value), Table(r.tgt.value), 1) || Steps(E, Table(r.src.value), Table(r.tgt.value), 2)
  {
    var s, t := r.src.value, r.tgt.value;
    if r.entity.None? || s in Targets(rows, r.entity.value) {
      EdgeMeans(rows, E, (Table(s), Table(t)));
      EdgeReach(E, Table(s), Table(t));
    } else {
      var k := r.entity.value;
      assert s in Sources(rows, k) && t in Targets(rows, k);
      EdgeMeans(rows, E, (Table(s), Entity(k)));
      EdgeMeans(rows, E, (Entity(k), Table(t)));
      EdgeReach(E, Table(s), Entity(k));
    }
  }

  /** A table-to-table edge is a recorded row, and every edge end is a node of the graph. */
  lemma EdgesAreRecorded(rows: set<Row>, tables: set<string>, entities: map<string, Info>, E: Edges, e: (Node, Node))
    requires Draws(rows, E) && TablesOf(rows, tables) && Gathered(rows, entities) && e in E
    ensures e.0.Table? && e.1.Table? ==> exists r :: r in rows && r.src == Some(e.0.ref) && r.tgt == Some(e.1.ref)
    ensures e.0.Table? ==> e.0.ref in tables
    ensures e.1.Table? ==> e.1.ref in tables
    ensures e.0.Entity? ==> e.0.key in entities
    ensures e.1.Entity? ==> e.1.key in entities
  {
    assert DrawnByRow(rows, rows, e);
    var r :| r in rows && e in Drawn(r, WrittenBy(rows, r.entity));
    if r.entity.Some? {
      assert GatheredFor(rows, entities, r.entity.value);
    }
  }

  /** A table has an edge to itself exactly when a row has it as both source and target. */
  lemma SelfLoops(rows: set<Row>, E: Edges, t: string)
    requires Draws(rows, E)
    ensures (Table(t), Table(t)) in E <==> exists r :: r in rows && r.src == Some(t) && r.tgt == Some(t)
  {
    EdgeMeans(rows, E, (Table(t), Table(t)));
    if r :| r in rows && r.src == Some(t) && r.tgt == Some(t) {
      assert r.entity.Some? ==> t in Targets(rows, r.entity.value);
    }
  }

  // ---------------------------------------------------------------------------
  // When the graph is acyclic
  // ---------------------------------------------------------------------------

  /** `s` flows into `t` by a directly drawn row, or by an entity that reads `s` (and does
      not write it) and writes `t`. */
  ghost predicate CrossFlow(rows: set<Row>, s: string, t: string)
  {
    Direct(rows, s, t) || exists k :: s in Sources(rows, k) && s !in Targets(rows, k) && t in Targets(rows, k)
  }

  /** `F` is the flow between tables, every entity's inputs crossed with its outputs. */
  ghost predicate CrossProduct(rows: set<Row>, F: Edges)
  {
    forall e :: e in F <==> e.0.Table? && e.1.Table? && CrossFlow(rows, e.0.ref, e.1.ref)
  }

  /** The graph is acyclic exactly when the cross product of every entity's inputs with its
      outputs, together with the directly drawn rows, is acyclic. */
  lemma AcyclicWhenCrossProductIs(rows: set<Row>, E: Edges, F: Edges)
    requires Draws(rows, E) && CrossProduct(rows, F)
    ensures Acyclic(E) <==> Acyclic(F)
  {
    NoTwoCycles(rows, E, "", "");
    forall e: (Node, Node) ensures e in F <==> Flows(E, e.0, e.1) {
      if e.0.Table? && e.1.Table? {
        EdgeMeans(rows, E, e);
        forall k: string
          ensures (e.0, Entity(k)) in E && (Entity(k), e.1) in E <==>
                  e.0.ref in Sources(rows, k) && e.0.ref !in Targets(rows, k) && e.1.ref in Targets(rows, k)
        {
          EdgeMeans(rows, E, (e.0, Entity(k)));
          EdgeMeans(rows, E, (Entity(k), e.1));
        }
      }
    }
    ContractionKeepsCycles(E, F);
  }

  /** Job k reads a and c and writes b and d; job l reads b and writes c. */
  function TwoJobs(): set<Row>
  {
    {Row(Some("a"), Some("b"), Some("k")), Row(Some("c"), Some("d"), Some("k")), Row(Some("b"), Some("c"), Some("l"))}
  }

  lemma TwoJobsPairs(pairs: set<(string, string)>)
    requires forall p :: p in pairs <==> exists r :: r in TwoJobs() && r.src == Some(p.0) && r.tgt == Some(p.1)
    ensures Acyclic(pairs)
  {
    RankedIsAcyclic(pairs, map["a" := 3, "b" := 2, "c" := 1, "d" := 0]);
  }

  lemma TwoJobsEdges(E: Edges)
    requires Draws(TwoJobs(), E)
    ensures (Entity("k"), Table("b")) in E && (Table("b"), Entity("l")) in E
    ensures (Entity("l"), Table("c")) in E && (Table("c"), Entity("k")) in E
  {
    var rows := TwoJobs();
    var x, y, z := Row(Some("a"), Some("b"), Some("k")), Row(Some("c"), Some("d"), Some("k")), Row(Some("b"), Some("c"), Some("l"));
    assert x in rows && y in rows && z in rows;
    EdgeMeans(rows, E, (Entity("k"), Table("b")));
    EdgeMeans(rows, E, (Table("b"), Entity("l")));
    EdgeMeans(rows, E, (Entity("l"), Table("c")));
    EdgeMeans(rows, E, (Table("c"), Entity("k")));
  }

  /** The recorded pairs a -> b -> c -> d have no cycle, and yet the graph does. */
  lemma AcyclicRowsCyclicGraph(E: Edges, pairs: set<(string, string)>)
    requires Draws(TwoJobs(), E)
    requires forall p :: p in pairs <==> exists r :: r in TwoJobs() && r.src == Some(p.0) && r.tgt == Some(p.1)
    ensures Acyclic(pairs) && !Acyclic(E)
  {
    TwoJobsPairs(pairs);
    TwoJobsEdges(E);
    EdgeReach(E, Entity("k"), Table("b"));
    assert Steps(E, Entity("k"), Entity("l"), 2);
    assert Steps(E, Entity("k"), Table("c"), 3);
    assert Steps(E, Entity("k"), Entity("k"), 4);
  }

  // ---------------------------------------------------------------------------
  // Counts and status
  // ---------------------------------------------------------------------------

  datatype Status = Orphan | Root | Leaf | Connected

  function EdgesInto(E: Edges, n: Node): Edges
  {
    set e | e in E && e.1 == n
  }

  function EdgesOutOf(E: Edges, n: Node): Edges
  {
    set e | e in E && e.0 == n
  }

  function Get(m: map<string, nat>, t: string): nat
  {
    if t in m then m[t] else 0
  }

  /** `up` and `down` count the edges of `E` into and out of the tables. */
  ghost predicate Counts(tables: set<string>, E: Edges, up: map<string, nat>, down: map<string, nat>)
  {
    forall t | t in tables :: Get(up, t) == |EdgesInto(E, Table(t))| && Get(down, t) == |EdgesOutOf(E, Table(t))|
  }

  lemma OneMoreInto(E: Edges, e: (Node, Node), n: Node)
    requires e !in E
    ensures |EdgesInto(E + {e}, n)| == |EdgesInto(E, n)| + (if e.1 == n then 1 else 0)
  {
    if e.1 == n {
      assert EdgesInto(E + {e}, n) == EdgesInto(E, n) + {e};
    } else {
      assert EdgesInto(E + {e}, n) == EdgesInto(E, n);
    }
  }

  lemma OneMoreOutOf(E: Edges, e: (Node, Node), n: Node)
    requires e !in E
    ensures |EdgesOutOf(E + {e}, n)| == |EdgesOutOf(E, n)| + (if e.0 == n then 1 else 0)
  {
    if e.0 == n {
      assert EdgesOutOf(E + {e}, n) == EdgesOutOf(E, n) + {e};
    } else {
      assert EdgesOutOf(E + {e}, n) == EdgesOutOf(E, n);
    }
  }

  /** `if n in table_ids: m[n] = m.get(n, 0) + 1`. */
  function CountEnd(m: map<string, nat>, tables: set<string>, n: Node): map<string, nat>
  {
    if n.Table? && n.ref in tables then m[n.ref := Get(m, n.ref) + 1] else m
  }

  lemma CountStep(tables: set<string>, E: Edges, up: map<string, nat>, down: map<string, nat>, e: (Node, Node))
    requires Counts(tables, E, up, down) && e !in E
    ensures Counts(tables, E + {e}, CountEnd(up, tables, e.1), CountEnd(down, tables, e.0))
  {
    forall t | t in tables
      ensures Get(CountEnd(up, tables, e.1), t) == |EdgesInto(E + {e}, Table(t))|
      ensures Get(CountEnd(down, tables, e.0), t) == |EdgesOutOf(E + {e}, Table(t))|
    {
      OneMoreInto(E, e, Table(t));
      OneMoreOutOf(E, e, Table(t));
    }
  }

  /** `_classify_table_nodes`. Edges to entities count like edges to tables. */
  method Classify(tables: set<string>, edges: Edges)
    returns (up: map<string, nat>, down: map<string, nat>, status: map<string, Status>)
    ensures Counts(tables, edges, up, down) && status.Keys == tables
    ensures forall t | t in tables ::
              && (status[t] == Orphan <==> EdgesInto(edges, Table(t)) == {} && EdgesOutOf(edges, Table(t)) == {})
              && (status[t] == Root <==> EdgesInto(edges, Table(t)) == {} && EdgesOutOf(edges, Table(t)) != {})
              && (status[t] == Leaf <==> EdgesInto(edges, Table(t)) != {} && EdgesOutOf(edges, Table(t)) == {})
  {
    up, down, status := map[], map[], map[];
    var todo := edges;
    while todo != {}
      invariant todo <= edges && Counts(tables, edges - todo, up, down)
    {
      var e :| e in todo;
      CountStep(tables, edges - todo, up, down, e);
      assert edges - todo + {e} == edges - (todo - {e});
      down := CountEnd(down, tables, e.0);
      up := CountEnd(up, tables, e.1);
      todo := todo - {e};
    }
    assert edges - {} == edges;
    status := map t | t in tables :: StatusOf(Get(up, t), Get(down, t));
  }

  function StatusOf(up: nat, down: nat): Status
  {
    if up == 0 && down == 0 then Orphan else if up == 0 then Root else if down == 0 then Leaf else Connected
  }

  /** In a built graph the tables without incoming edges are those that no entity writes
      and no direct row targets. */
  lemma NothingComesIn(rows: set<Row>, E: Edges, t: string)
    requires Draws(rows, E)
    ensures EdgesInto(E, Table(t)) == {} <==>
            forall r | r in rows && r.tgt == Some(t) :: r.entity.None? && r.src.None?
  {
    if EdgesInto(E, Table(t)) != {} {
      var e :| e in EdgesInto(E, Table(t));
      EdgeMeans(rows, E, e);
      if e.0.Entity? {
        var r :| r in rows && r.entity == Some(e.0.key) && r.tgt.Some? && r.tgt.value == t;
        assert r.tgt == Some(t);
      }
    }
    if r :| r in rows && r.tgt == Some(t) && !(r.entity.None? && r.src.None?) {
      var e := if r.entity.Some? then (Entity(r.entity.value), Table(t)) else (Table(r.src.value), Table(t));
      assert r.tgt.value == t;
      EdgeMeans(rows, E, e);
      assert e in EdgesInto(E, Table(t));
    }
  }

  // ---------------------------------------------------------------------------
  // The schema builder: add, discard, add
  // ---------------------------------------------------------------------------

  predicate Local(o: Option<string>, local: set<string>)
  {
    o.Some? && o.value in local
  }

  /** Some row of `rows` without an entity joins `s` to `t`, one of them in scope. */
  ghost predicate ScopedPair(rows: set<Row>, local: set<string>, s: string, t: string)
  {
    (s in local || t in local) && exists r :: r in rows && r.entity.None? && r.src == Some(s) && r.tgt == Some(t)
  }

  /** Entity `k` has a row and reads or writes a table in scope. */
  ghost predicate Kept(rows: set<Row>, local: set<string>, k: string)
  {
    Named(rows, k) && (Sources(rows, k) * local != {} || Targets(rows, k) * local != {})
  }

  /** The first loop: entities from all rows, direct pairs from the rows in scope. */
  method GatherScoped(rows: seq<Row>, local: set<string>)
    returns (infos: map<string, Info>, pairs: set<(string, string)>)
    ensures Gathered(Prefix(rows, |rows|), infos)
    ensures forall p :: p in pairs <==> ScopedPair(Prefix(rows, |rows|), local, p.0, p.1)
  {
    infos, pairs := map[], {};
    NothingYet(Prefix(rows, 0));
    for i := 0 to |rows|
      invariant Gathered(Prefix(rows, i), infos)
      invariant forall p :: p in pairs <==> ScopedPair(Prefix(rows, i), local, p.0, p.1)
    {
      var r := rows[i];
      PrefixStep(rows, i);
      NoteGathers(Prefix(rows, i), infos, r);
      PairStep(Prefix(rows, i), local, pairs, r);
      if r.entity.Some? {
        infos := Note(infos, r);
        continue;
      }
      if !Local(r.src, local) && !Local(r.tgt, local) {
        continue;
      }
      if r.src.Some? && r.tgt.Some? {
        pairs := pairs + {(r.src.value, r.tgt.value)};
      }
    }
  }

  lemma PairStep(rows: set<Row>, local: set<string>, pairs: set<(string, string)>, r: Row)
    requires forall p :: p in pairs <==> ScopedPair(rows, local, p.0, p.1)
    ensures var more := if r.entity.None? && r.src.Some? && r.tgt.Some? && (Local(r.src, local) || Local(r.tgt, local))
                        then pairs + {(r.src.value, r.tgt.value)} else pairs;
            forall p :: p in more <==> ScopedPair(rows + {r}, local, p.0, p.1)
  {
    forall p: (string, string)
      ensures ScopedPair(rows + {r}, local, p.0, p.1) <==>
              ScopedPair(rows, local, p.0, p.1)
              || (r.entity.None? && r.src == Some(p.0) && r.tgt == Some(p.1) && (p.0 in local || p.1 in local))
    {
      assert r in rows + {r};
      if ScopedPair(rows, local, p.0, p.1) {
        var q :| q in rows && q.entity.None? && q.src == Some(p.0) && q.tgt == Some(p.1);
        assert q in rows + {r};
      }
    }
  }

  /** Only the entities that touch the scope stay. */
  function Pruned(infos: map<string, Info>, local: set<string>): map<string, Info>
  {
    map k | k in infos && (infos[k].sources * local != {} || infos[k].targets * local != {}) :: infos[k]
  }

  /** The rows whose entity is in `K`. */
  ghost function RowsOf(rows: set<Row>, K: set<string>): set<Row>
  {
    set r | r in rows && r.entity.Some? && r.entity.value in K
  }

  /** `infos` describes exactly the entities in `K`, from the rows in `rows`. */
  ghost predicate Describes(rows: set<Row>, infos: map<string, Info>, K: set<string>)
  {
    infos.Keys == K && forall k | k in K :: infos[k] == Info(Sources(rows, k), Targets(rows, k))
  }

  /** The follow-up rows complete the entities that were kept; other entities are skipped. */
  method FollowUp(rows: seq<Row>, infos0: map<string, Info>, ghost first: set<Row>) returns (infos: map<string, Info>)
    requires Describes(first, infos0, infos0.Keys)
    ensures Describes(first + Prefix(rows, |rows|), infos, infos0.Keys)
  {
    infos := infos0;
    assert first + Prefix(rows, 0) == first;
    for i := 0 to |rows|
      invariant Describes(first + Prefix(rows, i), infos, infos0.Keys)
    {
      var r := rows[i];
      PrefixStep(rows, i);
      assert first + Prefix(rows, i + 1) == first + Prefix(rows, i) + {r};
      DescribeStep(first + Prefix(rows, i), infos, infos0.Keys, r);
      if r.entity.Some? && r.entity.value in infos {
        infos := Note(infos, r);
      }
    }
  }

  lemma DescribeStep(rows: set<Row>, infos: map<string, Info>, K: set<string>, r: Row)
    requires Describes(rows, infos, K)
    ensures Describes(rows + {r}, if r.entity.Some? && r.entity.value in infos then Note(infos, r) else infos, K)
  {
    forall k | k in K
      ensures Sources(rows + {r}, k) == Sources(rows, k) + (if r.entity == Some(k) then Just(r.src) else {})
      ensures Targets(rows + {r}, k) == Targets(rows, k) + (if r.entity == Some(k) then Just(r.tgt) else {})
    {
      SourcesStep(rows, r, k);
    }
  }

  /** The edge set between two passes: the entities in `K` have been routed, those in
      `gone` have had their back-edges discarded, `D` are the direct edges. */
  ghost predicate Stage(infos: map<string, Info>, K: set<string>, gone: set<string>, D: set<(string, string)>, E: Edges)
  {
    forall e :: e in E <==> StageMeaning(infos, K, gone, D, e)
  }

  ghost predicate StageMeaning(infos: map<string, Info>, K: set<string>, gone: set<string>, D: set<(string, string)>,
                               e: (Node, Node))
  {
    match e
    case (Table(s), Entity(k)) => k in K && k in infos && s in infos[k].sources && !(k in gone && s in infos[k].targets)
    case (Entity(k), Table(t)) => k in K && k in infos && t in infos[k].targets
    case (Table(s), Table(t)) => (s, t) in D
    case (Entity(_), Entity(_)) => false
  }

  function InEdges(info: Info, k: string): Edges
  {
    set s | s in info.sources :: (Table(s), Entity(k))
  }

  function OutEdges(info: Info, k: string): Edges
  {
    set t | t in info.targets :: (Entity(k), Table(t))
  }

  function BackEdges(info: Info, k: string): Edges
  {
    set t | t in info.sources * info.targets :: (Table(t), Entity(k))
  }

  lemma RouteOne(infos: map<string, Info>, K: set<string>, E: Edges, k: string)
    requires Stage(infos, K, {}, {}, E) && k in infos
    ensures Stage(infos, K + {k}, {}, {}, E + InEdges(infos[k], k) + OutEdges(infos[k], k))
  {
    forall e
      ensures e in E + InEdges(infos[k], k) + OutEdges(infos[k], k) <==> StageMeaning(infos, K + {k}, {}, {}, e)
    {
      match e
      case (Table(s), Entity(j)) => assert e in InEdges(infos[k], k) <==> j == k && s in infos[k].sources;
      case (Entity(j), Table(t)) => assert e in OutEdges(infos[k], k) <==> j == k && t in infos[k].targets;
      case _ =>
    }
  }

  /** Route every entity: its sources into it, it into its targets. */
  method RouteAll(infos: map<string, Info>) returns (edges: Edges)
    ensures Stage(infos, infos.Keys, {}, {}, edges)
  {
    edges := {};
    var todo := infos.Keys;
    while todo != {}
      invariant todo <= infos.Keys && Stage(infos, infos.Keys - todo, {}, {}, edges)
    {
      var k :| k in todo;
      RouteOne(infos, infos.Keys - todo, edges, k);
      assert infos.Keys - todo + {k} == infos.Keys - (todo - {k});
      edges := edges + InEdges(infos[k], k) + OutEdges(infos[k], k);
      todo := todo - {k};
    }
    assert infos.Keys - {} == infos.Keys;
  }

  /** Some entity reads `s` and writes `t`. */
  predicate Covered(infos: map<string, Info>, s: string, t: string)
  {
    exists k | k in infos :: s in infos[k].sources && t in infos[k].targets
  }

  /** A pair is covered exactly when one kept entity has a row that reads the one table and a
      row that writes the other. */
  lemma CoveredByRows(rows: set<Row>, infos: map<string, Info>, s: string, t: string)
    requires Describes(rows, infos, infos.Keys)
    ensures Covered(infos, s, t) <==>
              exists r, q :: r in rows && q in rows && r.entity.Some? && r.entity == q.entity && r.entity.value in infos
                             && r.src == Some(s) && q.tgt == Some(t)
  {
    if Covered(infos, s, t) {
      var k :| k in infos && s in infos[k].sources && t in infos[k].targets;
      assert s in Sources(rows, k) && t in Targets(rows, k);
      var r :| r in rows && r.entity == Some(k) && r.src.Some? && r.src.value == s;
      var q :| q in rows && q.entity == Some(k) && q.tgt.Some? && q.tgt.value == t;
      assert r.src == Some(s) && q.tgt == Some(t);
    }
    if r, q :| r in rows && q in rows && r.entity.Some? && r.entity == q.entity && r.entity.value in infos
               && r.src == Some(s) && q.tgt == Some(t) {
      assert s in Sources(rows, r.entity.value) && t in Targets(rows, r.entity.value);
    }
  }

  function Uncovered(infos: map<string, Info>, pairs: set<(string, string)>): set<(string, string)>
  {
    set p | p in pairs && !Covered(infos, p.0, p.1)
  }

  lemma AddDirectOne(infos: map<string, Info>, K: set<string>, gone: set<string>, D: set<(string, string)>, E: Edges,
                     s: string, t: string)
    requires Stage(infos, K, gone, D, E)
    ensures Stage(infos, K, gone, D + {(s, t)}, E + {(Table(s), Table(t))})
  {
  }

  /** Direct pairs join unless an entity covers them. */
  method AddDirect(infos: map<string, Info>, pairs: set<(string, string)>, edges0: Edges) returns (edges: Edges)
    requires Stage(infos, infos.Keys, {}, {}, edges0)
    ensures Stage(infos, infos.Keys, {}, Uncovered(infos, pairs), edges)
  {
    edges := edges0;
    var todo := pairs;
    assert Uncovered(infos, pairs - todo) == {};
    while todo != {}
      invariant todo <= pairs && Stage(infos, infos.Keys, {}, Uncovered(infos, pairs - todo), edges)
    {
      var p :| p in todo;
      if !Covered(infos, p.0, p.1) {
        AddDirectOne(infos, infos.Keys, {}, Uncovered(infos, pairs - todo), edges, p.0, p.1);
        assert Uncovered(infos, pairs - (todo - {p})) == Uncovered(infos, pairs - todo) + {p};
        edges := edges + {(Table(p.0), Table(p.1))};
      } else {
        assert Uncovered(infos, pairs - (todo - {p})) == Uncovered(infos, pairs - todo);
      }
      todo := todo - {p};
    }
    assert pairs - {} == pairs;
  }

  lemma DiscardOne(infos: map<string, Info>, gone: set<string>, D: set<(string, string)>, E: Edges, k: string)
    requires Stage(infos, infos.Keys, gone, D, E) && k in infos
    ensures Stage(infos, infos.Keys, gone + {k}, D, E - BackEdges(infos[k], k))
  {
    forall e ensures e in E - BackEdges(infos[k], k) <==> StageMeaning(infos, infos.Keys, gone + {k}, D, e) {
      match e
      case (Table(s), Entity(j)) =>
        assert e in BackEdges(infos[k], k) <==> j == k && s in infos[k].sources && s in infos[k].targets;
      case _ =>
    }
  }

  /** A table the entity writes must not be drawn as feeding it. */
  method DiscardBackEdges(infos: map<string, Info>, ghost D: set<(string, string)>, edges0: Edges) returns (edges: Edges)
    requires Stage(infos, infos.Keys, {}, D, edges0)
    ensures Stage(infos, infos.Keys, infos.Keys, D, edges)
  {
    edges := edges0;
    var todo := infos.Keys;
    assert infos.Keys - todo == {};
    while todo != {}
      invariant todo <= infos.Keys && Stage(infos, infos.Keys, infos.Keys - todo, D, edges)
    {
      var k :| k in todo;
      DiscardOne(infos, infos.Keys - todo, D, edges, k);
      assert infos.Keys - todo + {k} == infos.Keys - (todo - {k});
      edges := edges - BackEdges(infos[k], k);
      todo := todo - {k};
    }
    assert infos.Keys - {} == infos.Keys;
  }

  /** The row reads a table that its (kept) entity also writes. */
  predicate ReadsBack(infos: map<string, Info>, r: Row)
  {
    r.entity.Some? && r.entity.value in infos && r.src.Some? && r.tgt.Some? && r.src.value in infos[r.entity.value].targets
  }

  ghost function ReadBacks(infos: map<string, Info>, rows: set<Row>): set<(string, string)>
  {
    set r | r in rows && ReadsBack(infos, r) :: (r.src.value, r.tgt.value)
  }

  /** ... its rows are drawn as direct edges instead. */
  method AddReadBacks(infos: map<string, Info>, rows: seq<Row>, ghost D: set<(string, string)>, edges0: Edges)
    returns (edges: Edges)
    requires Stage(infos, infos.Keys, infos.Keys, D, edges0)
    ensures Stage(infos, infos.Keys, infos.Keys, D + ReadBacks(infos, Prefix(rows, |rows|)), edges)
  {
    edges := edges0;
    assert D + ReadBacks(infos, Prefix(rows, 0)) == D;
    for i := 0 to |rows|
      invariant Stage(infos, infos.Keys, infos.Keys, D + ReadBacks(infos, Prefix(rows, i)), edges)
    {
      var r := rows[i];
      PrefixStep(rows, i);
      if ReadsBack(infos, r) {
        AddDirectOne(infos, infos.Keys, infos.Keys, D + ReadBacks(infos, Prefix(rows, i)), edges, r.src.value, r.tgt.value);
        assert ReadBacks(infos, Prefix(rows, i + 1)) == ReadBacks(infos, Prefix(rows, i)) + {(r.src.value, r.tgt.value)};
        assert D + ReadBacks(infos, Prefix(rows, i + 1)) == D + ReadBacks(infos, Prefix(rows, i)) + {(r.src.value, r.tgt.value)};
        edges := edges + {(Table(r.src.value), Table(r.tgt.value))};
      } else {
        assert ReadBacks(infos, Prefix(rows, i + 1)) == ReadBacks(infos, Prefix(rows, i));
      }
    }
  }

  /** The direct pairs the schema view keeps. */
  ghost predicate KeptPair(rows: set<Row>, infos: map<string, Info>, local: set<string>, e: (Node, Node))
  {
    e.0.Table? && e.1.Table? && ScopedPair(rows, local, e.0.ref, e.1.ref) && !Covered(infos, e.0.ref, e.1.ref)
  }

  lemma StageIsTrace(R: set<Row>, infos: map<string, Info>, K: set<string>, D: set<(string, string)>, E: Edges, e: (Node, Node))
    requires Describes(R, infos, K) && Stage(infos, K, K, D + ReadBacks(infos, R), E)
    ensures e in E <==> EdgeMeaning(RowsOf(R, K), e) || (e.0.Table? && e.1.Table? && (e.0.ref, e.1.ref) in D)
  {
    assert e in E <==> StageMeaning(infos, K, K, D + ReadBacks(infos, R), e);
    forall k: string ensures Sources(RowsOf(R, K), k) == if k in K then Sources(R, k) else {}
                     ensures Targets(RowsOf(R, K), k) == if k in K then Targets(R, k) else {}
    {
    }
    if e.0.Table? && e.1.Table? {
      if (e.0.ref, e.1.ref) in ReadBacks(infos, R) {
        var r :| r in R && ReadsBack(infos, r) && r.src.value == e.0.ref && r.tgt.value == e.1.ref;
        assert r in RowsOf(R, K);
      }
      if Direct(RowsOf(R, K), e.0.ref, e.1.ref) {
        var r :| r in RowsOf(R, K) && r.src == Some(e.0.ref) && r.tgt == Some(e.1.ref)
                 && (r.entity.None? || e.0.ref in Targets(RowsOf(R, K), r.entity.value));
        assert ReadsBack(infos, r);
      }
    }
  }

  /** The edge part of the schema view. On the rows of the entities it keeps, it draws
      exactly the edges the trace builder would draw for those rows; beyond these it only
      adds the direct pairs in scope that no kept entity covers. */
  method SchemaEdges(lineage: seq<Row>, followup: seq<Row>, local: set<string>)
    returns (edges: Edges, infos: map<string, Info>)
    ensures var all := Prefix(lineage, |lineage|) + Prefix(followup, |followup|);
            && (forall k :: k in infos <==> Kept(Prefix(lineage, |lineage|), local, k))
            && Describes(all, infos, infos.Keys)
            && (forall e :: e in edges <==>
                  EdgeMeaning(RowsOf(all, infos.Keys), e) || KeptPair(Prefix(lineage, |lineage|), infos, local, e))
  {
    ghost var first := Prefix(lineage, |lineage|);
    var found, pairs := GatherScoped(lineage, local);
    PruneKeeps(first, found, local);
    infos := FollowUp(followup, Pruned(found, local), first);
    ghost var all := first + Prefix(followup, |followup|);
    edges := RouteAll(infos);
    edges := AddDirect(infos, pairs, edges);
    ghost var D := Uncovered(infos, pairs);
    edges := DiscardBackEdges(infos, D, edges);
    edges := AddReadBacks(infos, lineage + followup, D, edges);
    PrefixConcat(lineage, followup);
    forall e
      ensures e in edges <==> EdgeMeaning(RowsOf(all, infos.Keys), e) || KeptPair(first, infos, local, e)
    {
      StageIsTrace(all, infos, infos.Keys, D, edges, e);
    }
  }

  lemma PrefixConcat(a: seq<Row>, b: seq<Row>)
    ensures Prefix(a + b, |a + b|) == Prefix(a, |a|) + Prefix(b, |b|)
  {
    forall r | r in Prefix(b, |b|) ensures r in Prefix(a + b, |a + b|) {
      var j :| 0 <= j < |b| && b[j] == r;
      assert (a + b)[|a| + j] == r;
    }
    forall r | r in Prefix(a, |a|) ensures r in Prefix(a + b, |a + b|) {
      var j :| 0 <= j < |a| && a[j] == r;
      assert (a + b)[j] == r;
    }
  }

  lemma PruneKeeps(rows: set<Row>, infos: map<string, Info>, local: set<string>)
    requires Gathered(rows, infos)
    ensures forall k :: k in Pruned(infos, local) <==> Kept(rows, local, k)
    ensures Describes(rows, Pruned(infos, local), Pruned(infos, local).Keys)
  {
    forall k: string ensures k in Pruned(infos, local) <==> Kept(rows, local, k) {
      assert GatheredFor(rows, infos, k);
    }
    forall k | k in Pruned(infos, local) ensures Pruned(infos, local)[k] == Info(Sources(rows, k), Targets(rows, k)) {
      assert GatheredFor(rows, infos, k);
    }
  }

  /** A row without an entity leads from `s` to `t`. */
  ghost predicate PlainPair(rows: set<Row>, s: string, t: string)
  {
    exists r :: r in rows && r.entity.None? && r.src == Some(s) && r.tgt == Some(t)
  }

  /** Two tables joined by a row without an entity, which the schema view does not join:
      neither of them is in scope or an entity covers the pair, and no entity that reads the
      one and writes the other also writes the one. */
  ghost predicate LeftOut(rows: set<Row>, infos: map<string, Info>, local: set<string>, e: (Node, Node))
  {
    && e.0.Table? && e.1.Table? && PlainPair(rows, e.0.ref, e.1.ref) && (e.0.ref, e.1.ref) !in ReadBacks(infos, rows)
    && ((e.0.ref !in local && e.1.ref !in local) || Covered(infos, e.0.ref, e.1.ref))
  }

  lemma SameMeaning(rows: set<Row>, infos: map<string, Info>, e: (Node, Node))
    requires Describes(rows, infos, infos.Keys) && forall k :: k in infos <==> Named(rows, k)
    ensures EdgeMeaning(rows, e) <==> EdgeMeaning(RowsOf(rows, infos.Keys), e) || (e.0.Table? && e.1.Table? && PlainPair(rows, e.0.ref, e.1.ref))
    ensures e.0.Table? && e.1.Table? ==> (EdgeMeaning(RowsOf(rows, infos.Keys), e) <==> (e.0.ref, e.1.ref) in ReadBacks(infos, rows))
  {
    var R := RowsOf(rows, infos.Keys);
    forall k: string ensures Sources(R, k) == Sources(rows, k) && Targets(R, k) == Targets(rows, k) {
      forall r | r in rows && r.entity == Some(k) ensures r in R {
        assert Named(rows, k);
      }
    }
    if e.0.Table? && e.1.Table? {
      forall r | r in rows && r.entity.Some? && r.src == Some(e.0.ref) && r.tgt == Some(e.1.ref)
        ensures r in R && (ReadsBack(infos, r) <==> e.0.ref in Targets(R, r.entity.value))
      {
        assert Named(rows, r.entity.value);
      }
      if (e.0.ref, e.1.ref) in ReadBacks(infos, rows) {
        var r :| r in rows && ReadsBack(infos, r) && r.src.value == e.0.ref && r.tgt.value == e.1.ref;
        assert Direct(R, e.0.ref, e.1.ref);
      }
      if Direct(R, e.0.ref, e.1.ref) {
        var r :| r in R && r.src == Some(e.0.ref) && r.tgt == Some(e.1.ref) && (r.entity.None? || e.0.ref in Targets(R, r.entity.value));
        assert ReadsBack(infos, r);
      }
    }
  }

  /** On the same rows, with no follow-up and every entity kept, the trace builder draws
      what the schema view draws, and beyond it exactly the pairs that one leaves out. */
  lemma BuildersAgree(rows: set<Row>, infos: map<string, Info>, local: set<string>, T: Edges, S: Edges, e: (Node, Node))
    requires Draws(rows, T) && Describes(rows, infos, infos.Keys)
    requires forall k :: k in infos <==> Named(rows, k)
    requires forall f :: f in S <==> EdgeMeaning(RowsOf(rows, infos.Keys), f) || KeptPair(rows, infos, local, f)
    ensures e in T <==> e in S || LeftOut(rows, infos, local, e)
    ensures !(e in S && LeftOut(rows, infos, local, e))
  {
    EdgeMeans(rows, T, e);
    SameMeaning(rows, infos, e);
  }

  /** Collapsing a built graph to its tables keeps who reaches whom. */
  lemma CollapsedTraceKeepsReach(rows: set<Row>, E: Edges, out: seq<(Node, Node)>, s: string, t: string)
    requires Draws(rows, E) && IsCollapse(E, out)
    ensures Reach(E, Table(s), Table(t)) <==> Reach(Prefix(out, |out|), Table(s), Table(t))
  {
    NoTwoCycles(rows, E, s, t);
    CollapseKeepsReach(E, out, Table(s), Table(t));
  }
}
