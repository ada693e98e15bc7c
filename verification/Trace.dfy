/**
 The cross-catalog trace: two breadth-first walks, one up and one down, that run
 concurrently over shared row and node sets. `Inline` is `_fetch_lineage_trace` of
 backend/lineage_service.py, `Patched` its replacement in backend/perf_patches.py.
 The lineage table is a fixed finite relation that a query filters.
 */
module Trace {
  import opened Graphs
  import opened Wrappers

  /** One row of system.access.table_lineage; a missing or empty table name is None. */
  datatype Row<T> = Row(src: Option<T>, tgt: Option<T>, srcPath: string, tgtPath: string, entityId: string, rest: string)

  /** The columns by which rows are deduplicated. */
  datatype Key<T> = Key(src: Option<T>, tgt: Option<T>, srcPath: string, tgtPath: string, entityId: string)

  function KeyOf<T>(r: Row<T>): Key<T>
  {
    Key(r.src, r.tgt, r.srcPath, r.tgtPath, r.entityId)
  }

  datatype Direction = Up | Down

  /** The column a walk matches against its frontier, and the one it expands by. */
  function At<T>(dir: Direction, r: Row<T>): Option<T>
  {
    if dir == Up then r.tgt else r.src
  }

  function Onward<T>(dir: Direction, r: Row<T>): Option<T>
  {
    if dir == Up then r.src else r.tgt
  }

  // ---------------------------------------------------------------------------
  // The collector: rows deduplicated by key
  // ---------------------------------------------------------------------------

  datatype Collected<T(==)> = Collected(keys: set<Key<T>>, rows: seq<Row<T>>)

  function Add<T(==)>(c: Collected<T>, r: Row<T>): Collected<T>
  {
    if KeyOf(r) in c.keys then c else Collected(c.keys + {KeyOf(r)}, c.rows + [r])
  }

  function AddAll<T(==)>(c: Collected<T>, rows: seq<Row<T>>): Collected<T>
  {
    if rows == [] then c else Add(AddAll(c, rows[..|rows| - 1]), rows[|rows| - 1])
  }

  /** The keys are those of the rows, and no two rows have the same key. */
  ghost predicate Deduplicated<T(!new)>(c: Collected<T>)
  {
    && (forall k :: k in c.keys <==> exists i :: 0 <= i < |c.rows| && KeyOf(c.rows[i]) == k)
    && (forall i, j | 0 <= i < j < |c.rows| :: KeyOf(c.rows[i]) != KeyOf(c.rows[j]))
  }

  lemma AddKeepsDeduplicated<T(!new)>(c: Collected<T>, r: Row<T>)
    requires Deduplicated(c)
    ensures Deduplicated(Add(c, r))
  {
    var d := Add(c, r);
    if KeyOf(r) !in c.keys {
      forall k ensures k in d.keys <==> exists i :: 0 <= i < |d.rows| && KeyOf(d.rows[i]) == k {
        if k in c.keys {
          var i :| 0 <= i < |c.rows| && KeyOf(c.rows[i]) == k;
          assert d.rows[i] == c.rows[i];
        }
        assert d.rows[|c.rows|] == r;
      }
    }
  }

  /** Collecting keeps the deduplication, adds exactly the new keys, and takes every
      new row from the batch. */
  lemma {:induction false} AddAllFacts<T(!new)>(c: Collected<T>, rows: seq<Row<T>>)
    ensures Deduplicated(c) ==> Deduplicated(AddAll(c, rows))
    ensures forall k :: k in AddAll(c, rows).keys <==> k in c.keys || exists r :: r in rows && KeyOf(r) == k
    ensures c.rows <= AddAll(c, rows).rows
    ensures forall r :: r in AddAll(c, rows).rows ==> r in c.rows || r in rows
  {
    if rows != [] {
      var init, last := rows[..|rows| - 1], rows[|rows| - 1];
      AddAllFacts(c, init);
      assert rows == init + [last];
      if Deduplicated(c) {
        AddKeepsDeduplicated(AddAll(c, init), last);
      }
    }
  }

  /** Two rows that count as one: they agree on source and target, on both paths and on the
      entity. */
  predicate Agree<T(==)>(r: Row<T>, q: Row<T>)
  {
    r.src == q.src && r.tgt == q.tgt && r.srcPath == q.srcPath && r.tgtPath == q.tgtPath && r.entityId == q.entityId
  }

  /** Some row of the list agrees with `r`. */
  ghost predicate Represented<T(!new)>(rows: seq<Row<T>>, r: Row<T>)
  {
    exists q :: q in rows && Agree(q, r)
  }

  /** No two rows of the list agree. */
  ghost predicate AllDisagree<T(!new)>(rows: seq<Row<T>>)
  {
    forall i, j | 0 <= i < j < |rows| :: !Agree(rows[i], rows[j])
  }

  lemma KeyRepresents<T(!new)>(c: Collected<T>, r: Row<T>)
    requires Deduplicated(c) && KeyOf(r) in c.keys
    ensures Represented(c.rows, r)
  {
    var i :| 0 <= i < |c.rows| && KeyOf(c.rows[i]) == KeyOf(r);
    assert c.rows[i] in c.rows && Agree(c.rows[i], r);
  }

  lemma DeduplicatedDisagree<T(!new)>(c: Collected<T>)
    requires Deduplicated(c)
    ensures AllDisagree(c.rows)
  {
    forall i, j | 0 <= i < j < |c.rows| ensures !Agree(c.rows[i], c.rows[j]) {
      assert KeyOf(c.rows[i]) != KeyOf(c.rows[j]);
    }
  }

  /** Collecting leaves a row for each of the batch, whatever of the five fields it differs
      in from the others, and no two rows that differ in none. */
  lemma BatchRepresented<T(!new)>(c: Collected<T>, rows: seq<Row<T>>)
    requires Deduplicated(c)
    ensures Deduplicated(AddAll(c, rows)) && AllDisagree(AddAll(c, rows).rows)
    ensures forall r | r in rows :: Represented(AddAll(c, rows).rows, r)
  {
    AddAllFacts(c, rows);
    DeduplicatedDisagree(AddAll(c, rows));
    forall r | r in rows ensures Represented(AddAll(c, rows).rows, r) {
      KeyRepresents(AddAll(c, rows), r);
    }
  }

  /** Row `k` of the batch is `r`, and the first that agrees with it. */
  ghost predicate FirstAt<T(!new)>(rows: seq<Row<T>>, k: nat, r: Row<T>)
  {
    k < |rows| && rows[k] == r && forall j | 0 <= j < k :: !Agree(rows[j], r)
  }

  ghost predicate HasFirst<T(!new)>(rows: seq<Row<T>>, r: Row<T>)
  {
    exists k: nat :: FirstAt(rows, k, r)
  }

  ghost predicate InOrder<T(!new)>(rows: seq<Row<T>>, r: Row<T>, q: Row<T>)
  {
    exists a: nat, b: nat :: a < b && FirstAt(rows, a, r) && FirstAt(rows, b, q)
  }

  /** Behind the first `n`, the collected rows are the first of those of the batch that
      agree, in the batch's order. */
  ghost predicate KeepsFirsts<T(!new)>(n: nat, rows: seq<Row<T>>, all: seq<Row<T>>)
  {
    && (forall i {:trigger all[i]} | n <= i < |all| :: HasFirst(rows, all[i]))
    && (forall i, j {:trigger all[i], all[j]} | n <= i < j < |all| :: InOrder(rows, all[i], all[j]))
  }

  lemma StillFirst<T(!new)>(rows: seq<Row<T>>, last: Row<T>, k: nat, r: Row<T>)
    requires FirstAt(rows, k, r)
    ensures FirstAt(rows + [last], k, r)
  {
  }

  lemma StillInOrder<T(!new)>(rows: seq<Row<T>>, last: Row<T>, r: Row<T>, q: Row<T>)
    requires InOrder(rows, r, q)
    ensures InOrder(rows + [last], r, q)
  {
    var a: nat, b: nat :| a < b && FirstAt(rows, a, r) && FirstAt(rows, b, q);
    StillFirst(rows, last, a, r);
    StillFirst(rows, last, b, q);
  }

  lemma FirstsAppend<T(!new)>(n: nat, rows: seq<Row<T>>, last: Row<T>, all: seq<Row<T>>)
    requires KeepsFirsts(n, rows, all)
    ensures KeepsFirsts(n, rows + [last], all)
  {
    forall i | n <= i < |all| ensures HasFirst(rows + [last], all[i]) {
      assert HasFirst(rows, all[i]);
      var k: nat :| FirstAt(rows, k, all[i]);
      StillFirst(rows, last, k, all[i]);
    }
    forall i, j | n <= i < j < |all| ensures InOrder(rows + [last], all[i], all[j]) {
      StillInOrder(rows, last, all[i], all[j]);
    }
  }

  lemma BeforeNew<T(!new)>(rows: seq<Row<T>>, last: Row<T>, r: Row<T>)
    requires HasFirst(rows, r) && forall q | q in rows :: !Agree(q, last)
    ensures HasFirst(rows + [last], last) && InOrder(rows + [last], r, last)
  {
    var k: nat :| FirstAt(rows, k, r);
    StillFirst(rows, last, k, r);
    assert FirstAt(rows + [last], |rows|, last);
  }

  lemma NewIsFirst<T(!new)>(n: nat, rows: seq<Row<T>>, last: Row<T>, all: seq<Row<T>>)
    requires KeepsFirsts(n, rows, all) && n <= |all| && forall r | r in rows :: !Agree(r, last)
    ensures KeepsFirsts(n, rows + [last], all + [last])
  {
    FirstsAppend(n, rows, last, all);
    assert FirstAt(rows + [last], |rows|, last);
    assert HasFirst(rows + [last], last);
    forall i, j | n <= i < j < |all + [last]| ensures InOrder(rows + [last], (all + [last])[i], (all + [last])[j]) {
      if j < |all| {
        assert InOrder(rows + [last], all[i], all[j]);
      } else {
        assert HasFirst(rows, all[i]);
        BeforeNew(rows, last, all[i]);
      }
    }
  }

  lemma {:induction false} BatchKeepsFirsts<T(!new)>(c: Collected<T>, rows: seq<Row<T>>)
    ensures |c.rows| <= |AddAll(c, rows).rows| && KeepsFirsts(|c.rows|, rows, AddAll(c, rows).rows)
  {
    if rows != [] {
      var init, last := rows[..|rows| - 1], rows[|rows| - 1];
      assert rows == init + [last];
      BatchKeepsFirsts(c, init);
      AddAllFacts(c, init);
      var sofar := AddAll(c, init);
      if KeyOf(last) in sofar.keys {
        FirstsAppend(|c.rows|, init, last, sofar.rows);
      } else {
        forall r | r in init ensures !Agree(r, last) {
          assert KeyOf(r) in sofar.keys;
        }
        NewIsFirst(|c.rows|, init, last, sofar.rows);
      }
    }
  }

  /** The state `_collect` updates. */
  class Collector<T(==, !new)> {
    var rowKeys: set<Key<T>>
    var lineageRows: seq<Row<T>>

    function View(): Collected<T>
      reads this
    {
      Collected(rowKeys, lineageRows)
    }

    /** The keys are those of the rows, which all have different ones. */
    ghost predicate Valid()
      reads this
    {
      Deduplicated(View())
    }

    constructor ()
      ensures Valid() && View() == Collected({}, [])
    {
      rowKeys, lineageRows := {}, [];
    }

    /** `_collect(rows)`. */
    method Collect(rows: seq<Row<T>>)
      requires Valid()
      modifies this
      ensures Valid() && View() == AddAll(old(View()), rows)
      ensures old(lineageRows) <= lineageRows && forall r | r in lineageRows :: r in old(lineageRows) || r in rows
      ensures (forall r | r in rows :: Represented(lineageRows, r)) && AllDisagree(lineageRows)
      ensures KeepsFirsts(|old(lineageRows)|, rows, lineageRows)
    {
      BatchKeepsFirsts(View(), rows);
      AddAllFacts(View(), rows);
      BatchRepresented(View(), rows);
      for i := 0 to |rows|
        invariant View() == AddAll(old(View()), rows[..i])
      {
        var r := rows[i];
        assert rows[..i + 1][..i] == rows[..i];
        if KeyOf(r) !in rowKeys {
          rowKeys := rowKeys + {KeyOf(r)};
          lineageRows := lineageRows + [r];
        }
      }
      assert rows[..|rows|] == rows;
    }
  }

  // ---------------------------------------------------------------------------
  // The two walks as a step system
  // ---------------------------------------------------------------------------

  datatype Variant = Inline | Patched

  datatype Config<T(==)> = Config(variant: Variant, rel: set<Row<T>>, seed: T, maxIters: nat, nodeCap: nat, hopMaxRows: nat)

  /** Where a walk stands: at the head of its loop, about to query, collecting row `next`
      of the answer, expanding row `next`, about to claim the table it found unseen there,
      past the loop, finished, or dead of an exception. */
  datatype Pc = Head | Query | Collecting | Appending | Expanding | Claiming | Leaving | Done | Raised

  datatype Walker<T(==)> = Walker(
    dir: Direction,
    pc: Pc,
    iter: nat,
    frontier: set<T>,
    seen: set<T>,        // tables this walk has claimed (`local_seen` in the patched walk)
    answer: seq<Row<T>>,
    next: nat,
    found: set<T>,       // `nxt`
    broke: bool          // history: a query failed, or the node, row or hop cap was hit
  )

  datatype Shared<T(==)> = Shared(got: Collected<T>, seenAll: set<T>, truncated: bool)

  datatype State<T(==)> = State(up: Walker<T>, down: Walker<T>, shared: Shared<T>)

  ghost function Matching<T>(rel: set<Row<T>>, dir: Direction, frontier: set<T>): set<Row<T>>
  {
    set r | r in rel && At(dir, r).Some? && At(dir, r).value in frontier
  }

  /** A possible answer to the hop query: all matching rows, in any order; the inline
      query carries a LIMIT and may return fewer once the limit is reached. */
  ghost predicate Answer<T>(cfg: Config<T>, dir: Direction, frontier: set<T>, answer: seq<Row<T>>)
  {
    && (forall r | r in answer :: r in Matching(cfg.rel, dir, frontier))
    && (cfg.variant == Patched || |answer| < cfg.hopMaxRows ==>
          forall r | r in Matching(cfg.rel, dir, frontier) :: r in answer)
  }

  /** The inline query's LIMIT may have cut the answer short. */
  predicate RowCapHit<T>(cfg: Config<T>, answer: seq<Row<T>>)
  {
    cfg.variant == Inline && |answer| >= cfg.hopMaxRows
  }

  ghost predicate StepHead<T>(cfg: Config<T>, w: Walker<T>, s: Shared<T>, w': Walker<T>, s': Shared<T>)
  {
    && w.pc == Head
    && if w.iter == cfg.maxIters then w' == w.(pc := Leaving, broke := w.broke || w.frontier != {}) && s' == s
       else if |s.seenAll| > cfg.nodeCap then w' == w.(pc := Leaving, broke := true) && s' == s.(truncated := true)
       else if w.frontier == {} then w' == w.(pc := Leaving) && s' == s
       else w' == w.(pc := Query) && s' == s
  }

  ghost predicate StepQuery<T>(cfg: Config<T>, w: Walker<T>, s: Shared<T>, w': Walker<T>, s': Shared<T>)
  {
    && w.pc == Query
    && (|| (w' == w.(pc := if cfg.variant == Patched then Leaving else Raised, broke := true) && s' == s)
        || (&& w' == w.(pc := Collecting, answer := w'.answer, next := 0, broke := w.broke || RowCapHit(cfg, w'.answer))
            && Answer(cfg, w.dir, w.frontier, w'.answer)
            && s' == if RowCapHit(cfg, w'.answer) then s.(truncated := true) else s))
  }

  /** The patched walk collects its whole answer under the lock; the inline walk tests and
      appends row by row, and the other walk may run in between. */
  ghost predicate StepCollect<T>(cfg: Config<T>, w: Walker<T>, s: Shared<T>, w': Walker<T>, s': Shared<T>)
  {
    if w.pc == Collecting && cfg.variant == Patched then
      w' == w.(pc := Expanding, next := 0, found := {}) && s' == s.(got := AddAll(s.got, w.answer))
    else if w.pc == Collecting then
      && s' == s
      && w' == if w.next >= |w.answer| then w.(pc := Expanding, next := 0, found := {})
               else if KeyOf(w.answer[w.next]) in s.got.keys then w.(next := w.next + 1)
               else w.(pc := Appending)
    else
      && w.pc == Appending && w.next < |w.answer|
      && w' == w.(pc := Collecting, next := w.next + 1)
      && s' == s.(got := Collected(s.got.keys + {KeyOf(w.answer[w.next])}, s.got.rows + [w.answer[w.next]]))
  }

  /** The patched walk tests its own set, the inline walk the shared one; testing and
      claiming are separate steps. */
  ghost predicate StepExpand<T>(cfg: Config<T>, w: Walker<T>, s: Shared<T>, w': Walker<T>, s': Shared<T>)
  {
    && w.pc == Expanding
    && s' == s
    && w' == if w.next >= |w.answer| then w.(pc := Head, iter := w.iter + 1, frontier := w.found, found := {})
             else var t := Onward(w.dir, w.answer[w.next]);
                  if t.Some? && t.value !in (if cfg.variant == Patched then w.seen else s.seenAll) then w.(pc := Claiming)
                  else w.(next := w.next + 1)
  }

  ghost predicate StepClaim<T>(cfg: Config<T>, w: Walker<T>, s: Shared<T>, w': Walker<T>, s': Shared<T>)
  {
    && w.pc == Claiming && w.next < |w.answer| && Onward(w.dir, w.answer[w.next]).Some?
    && var t := Onward(w.dir, w.answer[w.next]).value;
       && w' == w.(pc := Expanding, next := w.next + 1, seen := w.seen + {t}, found := w.found + {t})
       && s' == s.(seenAll := s.seenAll + {t})
  }

  ghost predicate StepLeave<T>(cfg: Config<T>, w: Walker<T>, s: Shared<T>, w': Walker<T>, s': Shared<T>)
  {
    && w.pc == Leaving
    && w' == w.(pc := Done)
    && s' == if w.frontier != {} then s.(truncated := true) else s
  }

  ghost predicate StepWalker<T>(cfg: Config<T>, w: Walker<T>, s: Shared<T>, w': Walker<T>, s': Shared<T>)
  {
    || StepHead(cfg, w, s, w', s')
    || StepQuery(cfg, w, s, w', s')
    || StepCollect(cfg, w, s, w', s')
    || StepExpand(cfg, w, s, w', s')
    || StepClaim(cfg, w, s, w', s')
    || StepLeave(cfg, w, s, w', s')
  }

  /** One step of either walk. */
  ghost predicate Next<T>(cfg: Config<T>, a: State<T>, b: State<T>)
  {
    || (b.down == a.down && StepWalker(cfg, a.up, a.shared, b.up, b.shared))
    || (b.up == a.up && StepWalker(cfg, a.down, a.shared, b.down, b.shared))
  }

  function Start<T(==)>(dir: Direction, seed: T): Walker<T>
  {
    Walker(dir, Head, 0, {seed}, {seed}, [], 0, {}, false)
  }

  ghost predicate Init<T>(cfg: Config<T>, a: State<T>)
  {
    a == State(Start(Up, cfg.seed), Start(Down, cfg.seed), Shared(Collected({}, []), {cfg.seed}, false))
  }

  /** A finite run: any interleaving of the two walks from the initial state. */
  ghost predicate IsRun<T>(cfg: Config<T>, run: seq<State<T>>)
  {
    && run != []
    && Init(cfg, run[0])
    && forall i | 0 < i < |run| :: Next(cfg, run[i - 1], run[i])
  }

  // ---------------------------------------------------------------------------
  // What the trace should contain
  // ---------------------------------------------------------------------------

  /** The table-to-table edges of the relation. */
  ghost function EdgesOf<T(!new)>(rel: set<Row<T>>): set<(T, T)>
  {
    set r | r in rel && r.src.Some? && r.tgt.Some? :: (r.src.value, r.tgt.value)
  }

  ghost predicate Ancestor<T(!new)>(cfg: Config<T>, t: T)
  {
    Reach(EdgesOf(cfg.rel), t, cfg.seed)
  }

  ghost predicate Descendant<T(!new)>(cfg: Config<T>, t: T)
  {
    Reach(EdgesOf(cfg.rel), cfg.seed, t)
  }

  ghost predicate InCone<T(!new)>(cfg: Config<T>, dir: Direction, t: T)
  {
    if dir == Up then Ancestor(cfg, t) else Descendant(cfg, t)
  }

  /** A row of the seed's lineage: its target is an ancestor or its source a descendant. */
  ghost predicate Relevant<T(!new)>(cfg: Config<T>, r: Row<T>)
  {
    && r in cfg.rel
    && ((r.tgt.Some? && Ancestor(cfg, r.tgt.value)) || (r.src.Some? && Descendant(cfg, r.src.value)))
  }

  /** The collected rows are, up to the five fields, exactly the relevant rows. */
  ghost predicate Exact<T(!new)>(cfg: Config<T>, got: Collected<T>)
  {
    && (forall r | r in got.rows :: Relevant(cfg, r))
    && (forall k :: k in got.keys <==> exists r :: r in got.rows && KeyOf(r) == k)
    && (forall r | Relevant(cfg, r) :: KeyOf(r) in got.keys)
    && (forall r | Relevant(cfg, r) :: Represented(got.rows, r))
  }

  /** Only the seed is both an ancestor and a descendant of itself. */
  ghost predicate OnlySeedShared<T(!new)>(cfg: Config<T>)
  {
    forall t :: Ancestor(cfg, t) && Descendant(cfg, t) ==> t == cfg.seed
  }

  // ---------------------------------------------------------------------------
  // The invariant
  // ---------------------------------------------------------------------------

  /** A walk only ever claims tables of its cone, and only reads rows of the relation. */
  ghost predicate Sound<T(!new)>(cfg: Config<T>, w: Walker<T>)
  {
    && cfg.seed in w.seen && w.frontier <= w.seen && w.found <= w.seen
    && (forall t | t in w.seen :: InCone(cfg, w.dir, t))
    && (forall r | r in w.answer :: r in cfg.rel && At(w.dir, r).Some? && At(w.dir, r).value in w.seen)
    && (w.pc != Expanding && w.pc != Claiming ==> w.found == {})
    && (w.pc == Query ==> w.frontier != {})
    && (w.pc == Appending ==> cfg.variant == Inline)
  }

  /** What the other walk can keep this one from claiming: nothing if it has its own set. */
  function Hidden<T(==)>(cfg: Config<T>, other: Walker<T>): set<T>
  {
    if cfg.variant == Patched then {} else other.seen
  }

  /** The row leads to no table, or to one that this walk has claimed or the other one, `o`,
      has hidden. */
  ghost predicate Followed<T(!new)>(w: Walker<T>, o: set<T>, r: Row<T>)
  {
    Onward(w.dir, r).Some? ==> Onward(w.dir, r).value in w.seen || Onward(w.dir, r).value in o
  }

  /** Every row at `t` is collected and followed. */
  ghost predicate Settled<T(!new)>(cfg: Config<T>, w: Walker<T>, o: set<T>, keys: set<Key<T>>, t: T)
  {
    forall r | r in cfg.rel && At(w.dir, r) == Some(t) :: KeyOf(r) in keys && Followed(w, o, r)
  }

  /** Nothing is lost as long as no truncation has been flagged. */
  ghost predicate Thorough<T(!new)>(cfg: Config<T>, w: Walker<T>, o: set<T>, keys: set<Key<T>>)
  {
    && (forall t | t in w.seen && t !in w.frontier && t !in w.found :: Settled(cfg, w, o, keys, t))
    && (w.pc == Collecting || w.pc == Appending || w.pc == Expanding || w.pc == Claiming ==>
          forall r | r in Matching(cfg.rel, w.dir, w.frontier) :: r in w.answer)
    && (w.pc == Collecting || w.pc == Appending ==>
          forall i | 0 <= i < w.next && i < |w.answer| :: KeyOf(w.answer[i]) in keys)
    && (w.pc == Expanding || w.pc == Claiming ==>
          && (forall r | r in w.answer :: KeyOf(r) in keys)
          && (forall i | 0 <= i < w.next && i < |w.answer| :: Followed(w, o, w.answer[i])))
    && (w.pc == Done ==> w.frontier == {})
  }

  /** Every collected row is relevant, and the key set is the set of their keys. */
  ghost predicate CollectedOk<T(!new)>(cfg: Config<T>, got: Collected<T>)
  {
    && (forall r | r in got.rows :: Relevant(cfg, r))
    && (forall k :: k in got.keys <==> exists r :: r in got.rows && KeyOf(r) == k)
    && (cfg.variant == Patched ==> Deduplicated(got))
  }

  /** A walk that broke off has flagged it, or is about to. */
  ghost predicate Flagged<T(!new)>(w: Walker<T>, s: Shared<T>)
  {
    w.broke ==> s.truncated || w.pc == Raised || (w.pc == Leaving && w.frontier != {})
  }

  /** A walk leaves its loop with tables to go only if it broke off, and the flag is up only
      if some walk did. */
  ghost predicate Justified<T(!new)>(a: State<T>)
  {
    && (a.up.pc == Leaving && a.up.frontier != {} ==> a.up.broke)
    && (a.down.pc == Leaving && a.down.frontier != {} ==> a.down.broke)
    && (a.shared.truncated ==> a.up.broke || a.down.broke)
  }

  lemma BreaksOff<T(!new)>(cfg: Config<T>, w: Walker<T>, s: Shared<T>, w': Walker<T>, s': Shared<T>)
    requires StepWalker(cfg, w, s, w', s') && (w.pc == Leaving && w.frontier != {} ==> w.broke)
    ensures w'.pc == Leaving && w'.frontier != {} ==> w'.broke
    ensures (w.broke ==> w'.broke) && (s'.truncated ==> s.truncated || w'.broke)
  {
  }

  ghost predicate Inv<T(!new)>(cfg: Config<T>, a: State<T>)
  {
    && a.up.dir == Up && a.down.dir == Down
    && Sound(cfg, a.up) && Sound(cfg, a.down)
    && CollectedOk(cfg, a.shared.got)
    && a.shared.seenAll == a.up.seen + a.down.seen
    && Flagged(a.up, a.shared) && Flagged(a.down, a.shared) && Justified(a)
    && (!a.shared.truncated ==>
          && Thorough(cfg, a.up, Hidden(cfg, a.down), a.shared.got.keys)
          && Thorough(cfg, a.down, Hidden(cfg, a.up), a.shared.got.keys))
  }

  /** The walks cannot hide tables from each other: they keep separate `seen` sets, or the
      only table both can meet is the seed. */
  ghost predicate Separate<T(!new)>(cfg: Config<T>)
  {
    cfg.variant == Patched || OnlySeedShared(cfg)
  }

  lemma ConeStep<T(!new)>(cfg: Config<T>, dir: Direction, r: Row<T>)
    requires r in cfg.rel && At(dir, r).Some? && Onward(dir, r).Some? && InCone(cfg, dir, At(dir, r).value)
    ensures InCone(cfg, dir, Onward(dir, r).value)
  {
    var E := EdgesOf(cfg.rel);
    EdgeReach(E, r.src.value, r.tgt.value);
    if dir == Up {
      ReachTransitive(E, r.src.value, r.tgt.value, cfg.seed);
    } else {
      ReachTransitive(E, cfg.seed, r.src.value, r.tgt.value);
    }
  }

  /** One step of a walk keeps it sound. */
  lemma StepIsSound<T(!new)>(cfg: Config<T>, w: Walker<T>, s: Shared<T>, w': Walker<T>, s': Shared<T>)
    requires Sound(cfg, w) && StepWalker(cfg, w, s, w', s')
    ensures w'.dir == w.dir && Sound(cfg, w')
  {
    if StepClaim(cfg, w, s, w', s') {
      assert w.answer[w.next] in w.answer;
      ConeStep(cfg, w.dir, w.answer[w.next]);
    }
  }

  lemma CollectedAll<T(!new)>(cfg: Config<T>, got: Collected<T>, rows: seq<Row<T>>)
    requires CollectedOk(cfg, got) && forall r | r in rows :: Relevant(cfg, r)
    ensures CollectedOk(cfg, AddAll(got, rows)) && got.keys <= AddAll(got, rows).keys
    ensures forall r | r in rows :: KeyOf(r) in AddAll(got, rows).keys
    decreases rows
  {
    if rows != [] {
      var init, last := rows[..|rows| - 1], rows[|rows| - 1];
      assert rows == init + [last];
      CollectedAll(cfg, got, init);
      CollectedOne(cfg, AddAll(got, init), last);
      if cfg.variant == Patched {
        AddKeepsDeduplicated(AddAll(got, init), last);
      }
    }
  }

  ghost predicate KeysOfRows<T(!new)>(keys: set<Key<T>>, rows: seq<Row<T>>)
  {
    forall k :: k in keys <==> exists r :: r in rows && KeyOf(r) == k
  }

  lemma CollectedOne<T(!new)>(cfg: Config<T>, got: Collected<T>, r: Row<T>)
    requires KeysOfRows(got.keys, got.rows)
    ensures KeysOfRows(got.keys + {KeyOf(r)}, got.rows + [r])
  {
    var keys, rows := got.keys + {KeyOf(r)}, got.rows + [r];
    forall k ensures k in keys <==> exists q :: q in rows && KeyOf(q) == k {
      if k in got.keys {
        var q :| q in got.rows && KeyOf(q) == k;
        assert q in rows;
      } else if k == KeyOf(r) {
        assert r in rows;
      }
    }
  }

  /** One step of a walk adds only relevant rows. */
  lemma StepCollects<T(!new)>(cfg: Config<T>, w: Walker<T>, s: Shared<T>, w': Walker<T>, s': Shared<T>)
    requires Sound(cfg, w) && CollectedOk(cfg, s.got) && StepWalker(cfg, w, s, w', s')
    ensures CollectedOk(cfg, s'.got) && s.got.keys <= s'.got.keys
  {
    AnswerRelevant(cfg, w);
    if StepCollect(cfg, w, s, w', s') {
      if w.pc == Collecting && cfg.variant == Patched {
        CollectedAll(cfg, s.got, w.answer);
      } else if w.pc == Appending {
        CollectedOne(cfg, s.got, w.answer[w.next]);
      }
    }
  }

  // --- thoroughness, step by step ---------------------------------------------

  /** Whatever this walk finds already seen, it has itself seen or the other one hides. */
  ghost predicate SeesOwn<T(!new)>(cfg: Config<T>, w: Walker<T>, o: set<T>, s: Shared<T>)
  {
    cfg.variant == Patched || s.seenAll <= w.seen + o
  }

  lemma HeadThorough<T(!new)>(cfg: Config<T>, w: Walker<T>, o: set<T>, s: Shared<T>, w': Walker<T>, s': Shared<T>)
    requires Thorough(cfg, w, o, s.got.keys) && !s'.truncated
    requires StepHead(cfg, w, s, w', s') || StepLeave(cfg, w, s, w', s') || StepQuery(cfg, w, s, w', s')
    ensures Thorough(cfg, w', o, s'.got.keys)
  {
    forall t | t in w'.seen && t !in w'.frontier && t !in w'.found ensures Settled(cfg, w', o, s'.got.keys, t) {
      assert Settled(cfg, w, o, s.got.keys, t);
    }
  }

  lemma SettledGrows<T(!new)>(cfg: Config<T>, w: Walker<T>, o: set<T>, keys: set<Key<T>>, w': Walker<T>, keys': set<Key<T>>, o': set<T>)
    requires o <= o' && w'.dir == w.dir && w.seen <= w'.seen && keys <= keys'
    ensures forall t :: Settled(cfg, w, o, keys, t) ==> Settled(cfg, w', o', keys', t)
  {
  }

  lemma {:induction false} AddAllKeys<T(!new)>(c: Collected<T>, rows: seq<Row<T>>)
    ensures c.keys <= AddAll(c, rows).keys && forall r | r in rows :: KeyOf(r) in AddAll(c, rows).keys
  {
    if rows != [] {
      AddAllKeys(c, rows[..|rows| - 1]);
      assert rows == rows[..|rows| - 1] + [rows[|rows| - 1]];
    }
  }

  /** Collecting the whole answer at once. */
  lemma CollectAllThorough<T(!new)>(cfg: Config<T>, w: Walker<T>, o: set<T>, keys: set<Key<T>>, keys': set<Key<T>>)
    requires Thorough(cfg, w, o, keys) && w.pc == Collecting && keys <= keys'
    requires forall r | r in w.answer :: KeyOf(r) in keys'
    ensures Thorough(cfg, w.(pc := Expanding, next := 0, found := {}), o, keys') || w.found != {}
  {
    if w.found == {} {
      SettledGrows(cfg, w, o, keys, w.(pc := Expanding, next := 0, found := {}), keys', o);
    }
  }

  /** Collecting one row. */
  lemma CollectEnds<T(!new)>(cfg: Config<T>, w: Walker<T>, o: set<T>, keys: set<Key<T>>, w': Walker<T>)
    requires Sound(cfg, w) && Thorough(cfg, w, o, keys) && w.pc == Collecting && w.next >= |w.answer|
    requires w' == w.(pc := Expanding, next := 0, found := {})
    ensures Thorough(cfg, w', o, keys)
  {
    SettledGrows(cfg, w, o, keys, w', keys, o);
    forall r | r in w.answer ensures KeyOf(r) in keys {
      var i :| 0 <= i < |w.answer| && w.answer[i] == r;
    }
  }

  lemma CollectGoesOn<T(!new)>(cfg: Config<T>, w: Walker<T>, o: set<T>, keys: set<Key<T>>, w': Walker<T>, keys': set<Key<T>>)
    requires Thorough(cfg, w, o, keys) && (w.pc == Collecting || w.pc == Appending) && w.next < |w.answer| && keys <= keys'
    requires w' == w.(pc := w'.pc, next := w'.next) && (w'.pc == Collecting || w'.pc == Appending)
    requires w'.next == w.next || (w'.next == w.next + 1 && KeyOf(w.answer[w.next]) in keys')
    ensures Thorough(cfg, w', o, keys')
  {
    SettledGrows(cfg, w, o, keys, w', keys', o);
  }

  lemma CollectRowThorough<T(!new)>(cfg: Config<T>, w: Walker<T>, o: set<T>, s: Shared<T>, w': Walker<T>, s': Shared<T>)
    requires Sound(cfg, w) && Thorough(cfg, w, o, s.got.keys) && cfg.variant == Inline
    requires StepCollect(cfg, w, s, w', s')
    ensures Thorough(cfg, w', o, s'.got.keys)
  {
    if w.pc == Collecting && w.next >= |w.answer| {
      CollectEnds(cfg, w, o, s.got.keys, w');
    } else {
      CollectGoesOn(cfg, w, o, s.got.keys, w', s'.got.keys);
    }
  }

  lemma CollectThorough<T(!new)>(cfg: Config<T>, w: Walker<T>, o: set<T>, s: Shared<T>, w': Walker<T>, s': Shared<T>)
    requires Sound(cfg, w) && Thorough(cfg, w, o, s.got.keys)
    requires StepCollect(cfg, w, s, w', s')
    ensures Thorough(cfg, w', o, s'.got.keys)
  {
    if cfg.variant == Inline {
      CollectRowThorough(cfg, w, o, s, w', s');
    } else {
      AddAllKeys(s.got, w.answer);
      CollectAllThorough(cfg, w, o, s.got.keys, s'.got.keys);
    }
  }

  lemma AnswerRelevant<T(!new)>(cfg: Config<T>, w: Walker<T>)
    requires Sound(cfg, w)
    ensures forall r | r in w.answer :: Relevant(cfg, r)
  {
    forall r | r in w.answer ensures Relevant(cfg, r) {
      assert InCone(cfg, w.dir, At(w.dir, r).value);
    }
  }

  lemma ExpandThorough<T(!new)>(cfg: Config<T>, w: Walker<T>, o: set<T>, s: Shared<T>, w': Walker<T>, s': Shared<T>)
    requires Sound(cfg, w) && Thorough(cfg, w, o, s.got.keys) && SeesOwn(cfg, w, o, s)
    requires StepExpand(cfg, w, s, w', s')
    ensures Thorough(cfg, w', o, s'.got.keys)
  {
    if w.next >= |w.answer| {
      HopDone(cfg, w, o, s.got.keys, w');
    } else {
      RowDone(cfg, w, o, s, w');
    }
  }

  lemma RowDone<T(!new)>(cfg: Config<T>, w: Walker<T>, o: set<T>, s: Shared<T>, w': Walker<T>)
    requires Sound(cfg, w) && Thorough(cfg, w, o, s.got.keys) && SeesOwn(cfg, w, o, s)
    requires w.next < |w.answer| && StepExpand(cfg, w, s, w', s)
    ensures Thorough(cfg, w', o, s.got.keys)
  {
    var r := w.answer[w.next];
    assert w' != w.(pc := Claiming) ==> Followed(w, o, r);
    SettledGrows(cfg, w, o, s.got.keys, w', s.got.keys, o);
  }

  lemma HopDone<T(!new)>(cfg: Config<T>, w: Walker<T>, o: set<T>, keys: set<Key<T>>, w': Walker<T>)
    requires Thorough(cfg, w, o, keys) && w.pc == Expanding && w.next >= |w.answer|
    requires w' == w.(pc := Head, iter := w.iter + 1, frontier := w.found, found := {})
    ensures Thorough(cfg, w', o, keys)
  {
    SettledGrows(cfg, w, o, keys, w', keys, o);
    forall t | t in w'.seen && t !in w'.frontier ensures Settled(cfg, w', o, keys, t) {
      if t in w.frontier {
        FrontierSettled(cfg, w, o, keys, t);
      }
      assert Settled(cfg, w, o, keys, t);
    }
  }

  /** After the last row of the answer every frontier table is settled. */
  lemma FrontierSettled<T(!new)>(cfg: Config<T>, w: Walker<T>, o: set<T>, keys: set<Key<T>>, t: T)
    requires Thorough(cfg, w, o, keys) && w.pc == Expanding && w.next >= |w.answer| && t in w.frontier
    ensures Settled(cfg, w, o, keys, t)
  {
    forall r | r in cfg.rel && At(w.dir, r) == Some(t)
      ensures KeyOf(r) in keys && Followed(w, o, r)
    {
      assert r in Matching(cfg.rel, w.dir, w.frontier);
      var i :| 0 <= i < |w.answer| && w.answer[i] == r;
    }
  }

  lemma ClaimThorough<T(!new)>(cfg: Config<T>, w: Walker<T>, o: set<T>, s: Shared<T>, w': Walker<T>, s': Shared<T>)
    requires Thorough(cfg, w, o, s.got.keys) && StepClaim(cfg, w, s, w', s')
    ensures Thorough(cfg, w', o, s'.got.keys)
  {
    SettledGrows(cfg, w, o, s.got.keys, w', s'.got.keys, o);
  }

  lemma StepIsThorough<T(!new)>(cfg: Config<T>, w: Walker<T>, o: set<T>, s: Shared<T>, w': Walker<T>, s': Shared<T>)
    requires Sound(cfg, w) && Thorough(cfg, w, o, s.got.keys) && CollectedOk(cfg, s.got) && SeesOwn(cfg, w, o, s)
    requires StepWalker(cfg, w, s, w', s') && !s'.truncated
    ensures Thorough(cfg, w', o, s'.got.keys)
  {
    if StepCollect(cfg, w, s, w', s') {
      CollectThorough(cfg, w, o, s, w', s');
    } else if StepExpand(cfg, w, s, w', s') {
      ExpandThorough(cfg, w, o, s, w', s');
    } else if StepClaim(cfg, w, s, w', s') {
      ClaimThorough(cfg, w, o, s, w', s');
    } else {
      HeadThorough(cfg, w, o, s, w', s');
    }
  }

  // ---------------------------------------------------------------------------
  // Every interleaving
  // ---------------------------------------------------------------------------

  lemma InitInv<T(!new)>(cfg: Config<T>, a: State<T>)
    requires Init(cfg, a)
    ensures Inv(cfg, a)
  {
    ReachReflexive(EdgesOf(cfg.rel), cfg.seed);
  }

  /** What one walk's step does to the shared state, as the other walk sees it. */
  lemma SharedGrows<T(!new)>(cfg: Config<T>, w: Walker<T>, s: Shared<T>, w': Walker<T>, s': Shared<T>, other: set<T>)
    requires StepWalker(cfg, w, s, w', s') && s.seenAll == w.seen + other
    ensures s.truncated ==> s'.truncated
    ensures w.seen <= w'.seen
    ensures s'.seenAll == w'.seen + other
    ensures Flagged(w, s) && (w.pc == Query ==> w.frontier != {}) ==> Flagged(w', s')
  {
  }

  lemma SeesItsOwn<T(!new)>(cfg: Config<T>, a: State<T>)
    requires Inv(cfg, a)
    ensures SeesOwn(cfg, a.up, Hidden(cfg, a.down), a.shared) && SeesOwn(cfg, a.down, Hidden(cfg, a.up), a.shared)
  {
  }

  lemma StepUp<T(!new)>(cfg: Config<T>, a: State<T>, b: State<T>)
    requires Inv(cfg, a) && b.down == a.down && StepWalker(cfg, a.up, a.shared, b.up, b.shared)
    ensures Inv(cfg, b)
  {
    StepIsSound(cfg, a.up, a.shared, b.up, b.shared);
    BreaksOff(cfg, a.up, a.shared, b.up, b.shared);
    StepCollects(cfg, a.up, a.shared, b.up, b.shared);
    SharedGrows(cfg, a.up, a.shared, b.up, b.shared, a.down.seen);
    if !b.shared.truncated {
      SeesItsOwn(cfg, a);
      StepIsThorough(cfg, a.up, Hidden(cfg, a.down), a.shared, b.up, b.shared);
      KeysGrow(cfg, a.down, Hidden(cfg, a.up), a.shared.got.keys, Hidden(cfg, b.up), b.shared.got.keys);
    }
  }

  lemma StepDown<T(!new)>(cfg: Config<T>, a: State<T>, b: State<T>)
    requires Inv(cfg, a) && b.up == a.up && StepWalker(cfg, a.down, a.shared, b.down, b.shared)
    ensures Inv(cfg, b)
  {
    StepIsSound(cfg, a.down, a.shared, b.down, b.shared);
    BreaksOff(cfg, a.down, a.shared, b.down, b.shared);
    StepCollects(cfg, a.down, a.shared, b.down, b.shared);
    SharedGrows(cfg, a.down, a.shared, b.down, b.shared, a.up.seen);
    if !b.shared.truncated {
      SeesItsOwn(cfg, a);
      StepIsThorough(cfg, a.down, Hidden(cfg, a.up), a.shared, b.down, b.shared);
      KeysGrow(cfg, a.up, Hidden(cfg, a.down), a.shared.got.keys, Hidden(cfg, b.down), b.shared.got.keys);
    }
  }

  lemma KeysGrow<T(!new)>(cfg: Config<T>, w: Walker<T>, o: set<T>, keys: set<Key<T>>, o': set<T>, keys': set<Key<T>>)
    requires Thorough(cfg, w, o, keys) && keys <= keys' && o <= o'
    ensures Thorough(cfg, w, o', keys')
  {
    SettledGrows(cfg, w, o, keys, w, keys', o');
  }

  lemma {:induction false} RunInv<T(!new)>(cfg: Config<T>, run: seq<State<T>>)
    requires IsRun(cfg, run)
    ensures Inv(cfg, run[|run| - 1])
  {
    if |run| == 1 {
      InitInv(cfg, run[0]);
    } else {
      var before := run[..|run| - 1];
      RunInv(cfg, before);
      var a, b := run[|run| - 2], run[|run| - 1];
      assert Next(cfg, a, b);
      if b.down == a.down && StepWalker(cfg, a.up, a.shared, b.up, b.shared) {
        StepUp(cfg, a, b);
      } else {
        StepDown(cfg, a, b);
      }
    }
  }

  /** What holds the seed and is closed under the walk's steps holds its whole cone. */
  lemma ConeHeld<T(!new)>(cfg: Config<T>, dir: Direction, S: set<T>, t: T)
    requires cfg.seed in S && InCone(cfg, dir, t)
    requires forall r | r in cfg.rel && At(dir, r).Some? && At(dir, r).value in S && Onward(dir, r).Some? :: Onward(dir, r).value in S
    ensures t in S
  {
    var E := EdgesOf(cfg.rel);
    if dir == Down {
      var n: nat :| Steps(E, cfg.seed, t, n);
      ClosedHoldsReach(E, S, cfg.seed, t, n);
    } else {
      var n: nat :| Steps(E, t, cfg.seed, n);
      StepsReversed(E, t, cfg.seed, n);
      ClosedHoldsReach(Reversed(E), S, cfg.seed, t, n);
    }
  }

  /** A finished, thorough walk has claimed its whole cone if nothing of it was hidden
      from it. */
  lemma ConeClaimed<T(!new)>(cfg: Config<T>, w: Walker<T>, o: set<T>, keys: set<Key<T>>, t: T)
    requires Sound(cfg, w) && Thorough(cfg, w, o, keys) && w.pc == Done && InCone(cfg, w.dir, t)
    requires forall u | u in o && InCone(cfg, w.dir, u) :: u in w.seen
    ensures t in w.seen && Settled(cfg, w, o, keys, t)
  {
    forall r | r in cfg.rel && At(w.dir, r).Some? && At(w.dir, r).value in w.seen && Onward(w.dir, r).Some?
      ensures Onward(w.dir, r).value in w.seen
    {
      assert Settled(cfg, w, o, keys, At(w.dir, r).value);
      ConeStep(cfg, w.dir, r);
    }
    ConeHeld(cfg, w.dir, w.seen, t);
  }

  lemma KeyRepresented<T(!new)>(got: Collected<T>, r: Row<T>)
    requires KeysOfRows(got.keys, got.rows) && KeyOf(r) in got.keys
    ensures Represented(got.rows, r)
  {
    var q :| q in got.rows && KeyOf(q) == KeyOf(r);
    assert Agree(q, r);
  }

  /** With both walks finished and thorough, every relevant row is collected. */
  lemma RelevantCollected<T(!new)>(cfg: Config<T>, end: State<T>, r: Row<T>)
    requires Inv(cfg, end) && Separate(cfg) && end.up.pc == Done && end.down.pc == Done && !end.shared.truncated
    requires Relevant(cfg, r)
    ensures KeyOf(r) in end.shared.got.keys && Represented(end.shared.got.rows, r)
  {
    var keys := end.shared.got.keys;
    if r.tgt.Some? && Ancestor(cfg, r.tgt.value) {
      ConeClaimed(cfg, end.up, Hidden(cfg, end.down), keys, r.tgt.value);
    } else {
      ConeClaimed(cfg, end.down, Hidden(cfg, end.up), keys, r.src.value);
    }
    KeyRepresented(end.shared.got, r);
  }

  lemma EndIsExact<T(!new)>(cfg: Config<T>, end: State<T>)
    requires Inv(cfg, end) && Separate(cfg) && end.up.pc == Done && end.down.pc == Done && !end.shared.truncated
    ensures Exact(cfg, end.shared.got)
    ensures cfg.variant == Patched ==> Deduplicated(end.shared.got) && AllDisagree(end.shared.got.rows)
  {
    forall r | Relevant(cfg, r) ensures KeyOf(r) in end.shared.got.keys && Represented(end.shared.got.rows, r) {
      RelevantCollected(cfg, end, r);
    }
    if cfg.variant == Patched {
      DeduplicatedDisagree(end.shared.got);
    }
  }

  /** In every interleaving, a trace that ends without the truncation flag holds exactly the
      relevant rows, one for each combination of the five fields: always for the patched
      walk, and for the inline walk whenever no table but the seed is on both sides. */
  lemma UntruncatedIsExact<T(!new)>(cfg: Config<T>, run: seq<State<T>>)
    requires IsRun(cfg, run) && Separate(cfg)
    requires var end := run[|run| - 1]; end.up.pc == Done && end.down.pc == Done && !end.shared.truncated
    ensures Exact(cfg, run[|run| - 1].shared.got)
    ensures forall r | Relevant(cfg, r) :: Represented(run[|run| - 1].shared.got.rows, r)
    ensures cfg.variant == Patched ==> Deduplicated(run[|run| - 1].shared.got) && AllDisagree(run[|run| - 1].shared.got.rows)
  {
    RunInv(cfg, run);
    EndIsExact(cfg, run[|run| - 1]);
  }

  /** At every moment of every run the collected rows are relevant rows, and the flag is up
      only if a query failed or a cap was hit; a walk that finished after that has raised it. */
  lemma TraceIsSafe<T(!new)>(cfg: Config<T>, run: seq<State<T>>)
    requires IsRun(cfg, run)
    ensures var end := run[|run| - 1];
            && (forall r | r in end.shared.got.rows :: Relevant(cfg, r))
            && (end.shared.truncated ==> end.up.broke || end.down.broke)
            && (end.up.pc == Done && end.up.broke ==> end.shared.truncated)
            && (end.down.pc == Done && end.down.broke ==> end.shared.truncated)
  {
    RunInv(cfg, run);
  }

  function Side<T>(a: State<T>, dir: Direction): Walker<T>
  {
    if dir == Up then a.up else a.down
  }

  /** One walk's queries that were answered in a run. */
  ghost function Hops<T(!new)>(run: seq<State<T>>, dir: Direction): nat
  {
    if |run| < 2 then 0
    else
      var before, after := Side(run[|run| - 2], dir), Side(run[|run| - 1], dir);
      Hops(run[..|run| - 1], dir) + if before.pc == Query && after.pc == Collecting then 1 else 0
  }

  /** The walk is in the middle of a hop. */
  predicate InHop(pc: Pc)
  {
    pc == Collecting || pc == Appending || pc == Expanding || pc == Claiming
  }

  lemma StepCountsHop<T(!new)>(cfg: Config<T>, w: Walker<T>, s: Shared<T>, w': Walker<T>, s': Shared<T>)
    requires StepWalker(cfg, w, s, w', s') && w.iter <= cfg.maxIters
    requires w.pc == Query || InHop(w.pc) ==> w.iter < cfg.maxIters
    ensures w'.iter + (if InHop(w'.pc) then 1 else 0)
            == w.iter + (if InHop(w.pc) then 1 else 0) + (if w.pc == Query && w'.pc == Collecting then 1 else 0)
    ensures w'.iter <= cfg.maxIters && (w'.pc == Query || InHop(w'.pc) ==> w'.iter < cfg.maxIters)
  {
  }

  lemma {:induction false} HopsAreCounted<T(!new)>(cfg: Config<T>, run: seq<State<T>>, dir: Direction)
    requires IsRun(cfg, run)
    ensures var w := Side(run[|run| - 1], dir);
            && Hops(run, dir) == w.iter + (if InHop(w.pc) then 1 else 0)
            && w.iter <= cfg.maxIters && (w.pc == Query || InHop(w.pc) ==> w.iter < cfg.maxIters)
    decreases |run|
  {
    if |run| > 1 {
      var init := run[..|run| - 1];
      HopsAreCounted(cfg, init, dir);
      var a, b := run[|run| - 2], run[|run| - 1];
      assert Next(cfg, a, b);
      if Side(b, dir) != Side(a, dir) {
        StepCountsHop(cfg, Side(a, dir), a.shared, Side(b, dir), b.shared);
      }
    }
  }

  /** A walk asks at most `maxIters` times. It leaves its loop with tables to go, without
      having failed or seen too many tables, exactly when it has asked that often. */
  lemma HopCapIsExact<T(!new)>(cfg: Config<T>, run: seq<State<T>>, dir: Direction, b: State<T>)
    requires IsRun(cfg, run) && Next(cfg, run[|run| - 1], b)
    requires var w := Side(run[|run| - 1], dir);
             w.pc == Head && Side(b, dir) != w && w.frontier != {} && |run[|run| - 1].shared.seenAll| <= cfg.nodeCap
    ensures Hops(run, dir) <= cfg.maxIters
    ensures Side(b, dir).pc == Leaving <==> Hops(run, dir) == cfg.maxIters
  {
    HopsAreCounted(cfg, run, dir);
  }

  /** One walk's queries in a run, answered or not. */
  ghost function Asked<T(!new)>(run: seq<State<T>>, dir: Direction): nat
  {
    if |run| < 2 then 0
    else
      var before, after := Side(run[|run| - 2], dir), Side(run[|run| - 1], dir);
      Asked(run[..|run| - 1], dir) + if before.pc == Head && after.pc == Query then 1 else 0
  }

  /** Where a walk can stand next. */
  predicate Follows(variant: Variant, pc: Pc, next: Pc)
  {
    match pc
    case Head => next == Query || next == Leaving
    case Query => next == Collecting || next == if variant == Patched then Leaving else Raised
    case Raised => false
    case _ => next != Query && next != Raised
  }

  lemma StepFollows<T(!new)>(cfg: Config<T>, w: Walker<T>, s: Shared<T>, w': Walker<T>, s': Shared<T>)
    requires StepWalker(cfg, w, s, w', s')
    ensures Follows(cfg.variant, w.pc, w'.pc)
  {
  }

  /** Of the walk's queries, all but one it waits for or failed with have been answered. */
  ghost predicate Tallied<T(!new)>(cfg: Config<T>, run: seq<State<T>>, dir: Direction, pc: Pc)
  {
    if cfg.variant == Inline then Asked(run, dir) == Hops(run, dir) + (if pc == Query || pc == Raised then 1 else 0)
    else pc != Raised && Asked(run, dir) >= Hops(run, dir) + (if pc == Query then 1 else 0)
  }

  lemma TallyStep<T(!new)>(cfg: Config<T>, run: seq<State<T>>, dir: Direction, pc: Pc, next: Pc)
    requires |run| > 1 && pc == Side(run[|run| - 2], dir).pc && next == Side(run[|run| - 1], dir).pc
    requires Tallied(cfg, run[..|run| - 1], dir, pc) && (pc == next || Follows(cfg.variant, pc, next))
    ensures Tallied(cfg, run, dir, next)
  {
  }

  lemma NextFollows<T(!new)>(cfg: Config<T>, a: State<T>, b: State<T>, dir: Direction)
    requires Next(cfg, a, b)
    ensures Side(b, dir).pc == Side(a, dir).pc || Follows(cfg.variant, Side(a, dir).pc, Side(b, dir).pc)
  {
    if Side(b, dir) != Side(a, dir) {
      StepFollows(cfg, Side(a, dir), a.shared, Side(b, dir), b.shared);
    }
  }

  lemma RunSplits<T(!new)>(cfg: Config<T>, run: seq<State<T>>)
    requires IsRun(cfg, run) && |run| > 1
    ensures IsRun(cfg, run[..|run| - 1]) && Next(cfg, run[|run| - 2], run[|run| - 1])
  {
  }

  /** A failed query ends the inline trace with an exception, so an inline walk that
      finishes has had every query answered; the patched walk carries on with what it has,
      and never raises. */
  lemma {:induction false} FailuresRaiseInline<T(!new)>(cfg: Config<T>, run: seq<State<T>>, dir: Direction)
    requires IsRun(cfg, run)
    ensures Tallied(cfg, run, dir, Side(run[|run| - 1], dir).pc)
    decreases |run|
  {
    if |run| > 1 {
      RunSplits(cfg, run);
      FailuresRaiseInline(cfg, run[..|run| - 1], dir);
      NextFollows(cfg, run[|run| - 2], run[|run| - 1], dir);
      TallyStep(cfg, run, dir, Side(run[|run| - 2], dir).pc, Side(run[|run| - 1], dir).pc);
    }
  }

  /** Any `hopMaxRows` of the matching rows may be all that the inline query returns, and
      then the flag goes up, whether or not there are more. */
  lemma CutIsFlagged<T(!new)>(cfg: Config<T>, w: Walker<T>, s: Shared<T>, answer: seq<Row<T>>) returns (w': Walker<T>)
    requires cfg.variant == Inline && w.pc == Query
    requires |answer| == cfg.hopMaxRows && forall r | r in answer :: r in Matching(cfg.rel, w.dir, w.frontier)
    ensures StepQuery(cfg, w, s, w', s.(truncated := true)) && w'.pc == Collecting && w'.answer == answer && w'.broke
  {
    w' := w.(pc := Collecting, answer := answer, next := 0, broke := true);
  }

  // ---------------------------------------------------------------------------
  // Without the hypothesis the inline trace can lose rows
  // ---------------------------------------------------------------------------

  lemma Extend<T(!new)>(cfg: Config<T>, run: seq<State<T>>, b: State<T>) returns (longer: seq<State<T>>)
    requires IsRun(cfg, run) && Next(cfg, run[|run| - 1], b)
    ensures longer == run + [b] && IsRun(cfg, longer)
  {
    longer := run + [b];
    forall i | 0 < i < |longer| ensures Next(cfg, longer[i - 1], longer[i]) {
      if i < |run| {
        assert Next(cfg, run[i - 1], run[i]);
      }
    }
  }

  function PlainRow(s: int, t: int): Row<int>
  {
    Row(Some(s), Some(t), "", "", "", "")
  }

  /** Tables 0 (the seed) and 1 feed each other, and 1 also feeds 2. */
  function TwoWay(): Config<int>
  {
    Config(Inline, {PlainRow(1, 0), PlainRow(0, 1), PlainRow(1, 2)}, 0, 16, 2500, 5000)
  }

  lemma UpFirstHop() returns (run: seq<State<int>>)
    ensures IsRun(TwoWay(), run)
    ensures run[|run| - 1] ==
            State(Walker(Up, Head, 1, {1}, {0, 1}, [PlainRow(1, 0)], 1, {}, false), Start(Down, 0),
                  Shared(Collected({KeyOf(PlainRow(1, 0))}, [PlainRow(1, 0)]), {0, 1}, false))
  {
    var cfg := TwoWay();
    var a := PlainRow(1, 0);
    var u, d := Start(Up, 0), Start(Down, 0);
    var s := Shared(Collected({}, []), {0}, false);
    run := [State(u, d, s)];
    u := u.(pc := Query);                                       run := Extend(cfg, run, State(u, d, s));
    assert Matching(cfg.rel, Up, {0}) == {a};
    u := u.(pc := Collecting, answer := [a], next := 0);        run := Extend(cfg, run, State(u, d, s));
    u := u.(pc := Appending);                                   run := Extend(cfg, run, State(u, d, s));
    u := u.(pc := Collecting, next := 1);
    s := s.(got := Collected({KeyOf(a)}, [a]));                 run := Extend(cfg, run, State(u, d, s));
    u := u.(pc := Expanding, next := 0, found := {});           run := Extend(cfg, run, State(u, d, s));
    u := u.(pc := Claiming);                                    run := Extend(cfg, run, State(u, d, s));
    u := u.(pc := Expanding, next := 1, seen := {0, 1}, found := {1});
    s := s.(seenAll := {0, 1});                                 run := Extend(cfg, run, State(u, d, s));
    u := u.(pc := Head, iter := 1, frontier := {1}, found := {});
    run := Extend(cfg, run, State(u, d, s));
  }

  lemma UpSecondHop() returns (run: seq<State<int>>)
    ensures IsRun(TwoWay(), run)
    ensures run[|run| - 1].down == Start(Down, 0) && run[|run| - 1].up.pc == Done
    ensures run[|run| - 1].shared ==
            Shared(Collected({KeyOf(PlainRow(1, 0)), KeyOf(PlainRow(0, 1))}, [PlainRow(1, 0), PlainRow(0, 1)]), {0, 1}, false)
  {
    var cfg := TwoWay();
    run := UpFirstHop();
    var a, b := PlainRow(1, 0), PlainRow(0, 1);
    var u, d, s := run[|run| - 1].up, run[|run| - 1].down, run[|run| - 1].shared;
    u := u.(pc := Query);                                       run := Extend(cfg, run, State(u, d, s));
    assert Matching(cfg.rel, Up, {1}) == {b};
    u := u.(pc := Collecting, answer := [b], next := 0);        run := Extend(cfg, run, State(u, d, s));
    u := u.(pc := Appending);                                   run := Extend(cfg, run, State(u, d, s));
    u := u.(pc := Collecting, next := 1);
    s := s.(got := Collected({KeyOf(a), KeyOf(b)}, [a, b]));    run := Extend(cfg, run, State(u, d, s));
    u := u.(pc := Expanding, next := 0, found := {});           run := Extend(cfg, run, State(u, d, s));
    u := u.(next := 1);                                         run := Extend(cfg, run, State(u, d, s));
    u := u.(pc := Head, iter := 2, frontier := {}, found := {});
    run := Extend(cfg, run, State(u, d, s));
    u := u.(pc := Leaving);                                     run := Extend(cfg, run, State(u, d, s));
    u := u.(pc := Done);                                        run := Extend(cfg, run, State(u, d, s));
  }

  /** The down walk then finds table 1 already seen and never asks what reads it: the run
      ends untruncated without the relevant row from 1 to 2. */
  lemma InlineCanLoseRows() returns (run: seq<State<int>>)
    ensures IsRun(TwoWay(), run)
    ensures var end := run[|run| - 1];
            && end.up.pc == Done && end.down.pc == Done && !end.shared.truncated
            && Relevant(TwoWay(), PlainRow(1, 2)) && !Represented(end.shared.got.rows, PlainRow(1, 2))
  {
    var cfg := TwoWay();
    run := UpSecondHop();
    var end := run[|run| - 1];
    var u, d, s := end.up, end.down, end.shared;
    var b := PlainRow(0, 1);
    d := d.(pc := Query);                                       run := Extend(cfg, run, State(u, d, s));
    assert Matching(cfg.rel, Down, {0}) == {b};
    d := d.(pc := Collecting, answer := [b], next := 0);        run := Extend(cfg, run, State(u, d, s));
    d := d.(next := 1);                                         run := Extend(cfg, run, State(u, d, s));
    d := d.(pc := Expanding, next := 0, found := {});           run := Extend(cfg, run, State(u, d, s));
    d := d.(next := 1);                                         run := Extend(cfg, run, State(u, d, s));
    d := d.(pc := Head, iter := 1, frontier := {}, found := {});
    run := Extend(cfg, run, State(u, d, s));
    d := d.(pc := Leaving);                                     run := Extend(cfg, run, State(u, d, s));
    d := d.(pc := Done);                                        run := Extend(cfg, run, State(u, d, s));
    assert (b.src.value, b.tgt.value) in EdgesOf(cfg.rel);
    EdgeReach(EdgesOf(cfg.rel), 0, 1);
  }
}
