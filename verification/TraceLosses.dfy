/**
 Which lineages make the inline trace lose rows: runs in which one walk finishes before the
 other one starts, and the rows that some such run loses.
 */
module TraceLosses {
  import opened Trace
  import opened TraceClaims
  import opened Graphs
  import opened Sequences
  import opened Wrappers

  // ---------------------------------------------------------------------------
  // One walk on its own
  // ---------------------------------------------------------------------------

  /** `n` steps of one walk take it from `w` to `w'`. */
  ghost predicate Solo<T(!new)>(cfg: Config<T>, w: Walker<T>, s: Shared<T>, w': Walker<T>, s': Shared<T>, n: nat)
    decreases n
  {
    if n == 0 then w' == w && s' == s
    else exists m, u :: Solo(cfg, w, s, m, u, n - 1) && StepWalker(cfg, m, u, w', s')
  }

  ghost predicate Leads<T(!new)>(cfg: Config<T>, w: Walker<T>, s: Shared<T>, w': Walker<T>, s': Shared<T>)
  {
    exists n: nat :: Solo(cfg, w, s, w', s', n)
  }

  lemma LeadsNowhere<T(!new)>(cfg: Config<T>, w: Walker<T>, s: Shared<T>)
    ensures Leads(cfg, w, s, w, s)
  {
    assert Solo(cfg, w, s, w, s, 0);
  }

  lemma Go<T(!new)>(cfg: Config<T>, w: Walker<T>, s: Shared<T>, m: Walker<T>, u: Shared<T>, w': Walker<T>, s': Shared<T>)
    requires Leads(cfg, w, s, m, u) && StepWalker(cfg, m, u, w', s')
    ensures Leads(cfg, w, s, w', s')
  {
    var n: nat :| Solo(cfg, w, s, m, u, n);
    assert Solo(cfg, w, s, w', s', n + 1);
  }

  function Put<T>(a: State<T>, dir: Direction, w: Walker<T>, s: Shared<T>): State<T>
  {
    if dir == Up then State(w, a.down, s) else State(a.up, w, s)
  }

  ghost predicate EndsIn<T(!new)>(cfg: Config<T>, run: seq<State<T>>, a: State<T>)
  {
    IsRun(cfg, run) && run[|run| - 1] == a
  }

  ghost predicate Reached<T(!new)>(cfg: Config<T>, a: State<T>)
  {
    exists run :: EndsIn(cfg, run, a)
  }

  lemma PutOn<T(!new)>(cfg: Config<T>, a: State<T>, dir: Direction, m: Walker<T>, u: Shared<T>, w': Walker<T>, s': Shared<T>)
    requires Reached(cfg, Put(a, dir, m, u)) && StepWalker(cfg, m, u, w', s')
    ensures Reached(cfg, Put(a, dir, w', s'))
  {
    var run :| EndsIn(cfg, run, Put(a, dir, m, u));
    var longer := Extend(cfg, run, Put(a, dir, w', s'));
    assert EndsIn(cfg, longer, Put(a, dir, w', s'));
  }

  lemma LiftLast<T(!new)>(cfg: Config<T>, a: State<T>, dir: Direction, w: Walker<T>, s: Shared<T>, w': Walker<T>, s': Shared<T>, n: nat)
    requires n > 0 && Solo(cfg, w, s, w', s', n)
    requires forall m, u | Solo(cfg, w, s, m, u, n - 1) :: Reached(cfg, Put(a, dir, m, u))
    ensures Reached(cfg, Put(a, dir, w', s'))
  {
    var m, u :| Solo(cfg, w, s, m, u, n - 1) && StepWalker(cfg, m, u, w', s');
    PutOn(cfg, a, dir, m, u, w', s');
  }

  /** One walk goes on while the other one waits. */
  lemma {:induction false} Lift<T(!new)>(cfg: Config<T>, a: State<T>, dir: Direction, w: Walker<T>, s: Shared<T>, n: nat)
    requires Reached(cfg, Put(a, dir, w, s))
    ensures forall w', s' | Solo(cfg, w, s, w', s', n) :: Reached(cfg, Put(a, dir, w', s'))
  {
    if n > 0 {
      Lift(cfg, a, dir, w, s, n - 1);
      forall w', s' | Solo(cfg, w, s, w', s', n) ensures Reached(cfg, Put(a, dir, w', s')) {
        LiftLast(cfg, a, dir, w, s, w', s', n);
      }
    }
  }

  // ---------------------------------------------------------------------------
  // With caps large enough a walk on its own finishes unflagged
  // ---------------------------------------------------------------------------

  ghost function Tables<T(!new)>(cfg: Config<T>): set<T>
  {
    {cfg.seed} + (set r | r in cfg.rel && r.src.Some? :: r.src.value) + (set r | r in cfg.rel && r.tgt.Some? :: r.tgt.value)
  }

  /** No cap can be hit. */
  ghost predicate Roomy<T(!new)>(cfg: Config<T>)
  {
    cfg.hopMaxRows > |cfg.rel| && cfg.nodeCap >= |Tables(cfg)| && cfg.maxIters > |Tables(cfg)|
  }

  lemma {:induction false} Listing<T(!new)>(S: set<T>) returns (s: seq<T>)
    ensures Lists(s, S) && |s| == |S|
    decreases S
  {
    if S == {} {
      s := [];
    } else {
      var x :| x in S;
      s := Listing(S - {x});
      ListsAdd(s, S - {x}, x);
      s := s + [x];
      assert S - {x} + {x} == S;
    }
  }

  /** The inline walk collects its answer. */
  lemma {:induction false} CollectOn<T(!new)>(cfg: Config<T>, w0: Walker<T>, s0: Shared<T>, w: Walker<T>, s: Shared<T>) returns (s': Shared<T>)
    requires cfg.variant == Inline && Leads(cfg, w0, s0, w, s) && w.pc == Collecting
    ensures Leads(cfg, w0, s0, w.(pc := Expanding, next := 0, found := {}), s')
    ensures s'.seenAll == s.seenAll && s'.truncated == s.truncated
    decreases |w.answer| - w.next
  {
    if w.next >= |w.answer| {
      s' := s;
      Go(cfg, w0, s0, w, s, w.(pc := Expanding, next := 0, found := {}), s);
    } else if KeyOf(w.answer[w.next]) in s.got.keys {
      Go(cfg, w0, s0, w, s, w.(next := w.next + 1), s);
      s' := CollectOn(cfg, w0, s0, w.(next := w.next + 1), s);
    } else {
      var m, t := w.(pc := Appending), w.(next := w.next + 1);
      var u := s.(got := Collected(s.got.keys + {KeyOf(w.answer[w.next])}, s.got.rows + [w.answer[w.next]]));
      Go(cfg, w0, s0, w, s, m, s);
      Go(cfg, w0, s0, m, s, t, u);
      s' := CollectOn(cfg, w0, s0, t, u);
    }
  }

  /** What a walk on its own keeps: `hidden` are the tables that only the other walk has
      claimed, `base` the tables claimed before this hop. */
  ghost predicate OnTrack<T(!new)>(cfg: Config<T>, w: Walker<T>, s: Shared<T>, hidden: set<T>, base: nat)
  {
    && !s.truncated && w.seen <= s.seenAll <= Tables(cfg) && s.seenAll - w.seen == hidden
    && w.found <= w.seen && |w.seen| == base + |w.found|
    && forall r | r in w.answer :: r in cfg.rel
  }

  lemma OnTrackClaims<T(!new)>(cfg: Config<T>, w: Walker<T>, s: Shared<T>, hidden: set<T>, base: nat, r: Row<T>, t: T)
    requires OnTrack(cfg, w, s, hidden, base) && r in w.answer && Onward(w.dir, r) == Some(t) && t !in s.seenAll
    ensures OnTrack(cfg, w.(pc := Expanding, next := w.next + 1, seen := w.seen + {t}, found := w.found + {t}),
                    s.(seenAll := s.seenAll + {t}), hidden, base)
  {
    assert r in cfg.rel && t in Tables(cfg);
  }

  lemma ClaimOn<T(!new)>(cfg: Config<T>, w0: Walker<T>, s0: Shared<T>, w: Walker<T>, s: Shared<T>, c: Walker<T>, u: Shared<T>, t: T)
    requires cfg.variant == Inline && Leads(cfg, w0, s0, w, s) && w.pc == Expanding && w.next < |w.answer|
    requires Onward(w.dir, w.answer[w.next]) == Some(t) && t !in s.seenAll
    requires c == w.(next := w.next + 1, seen := w.seen + {t}, found := w.found + {t}) && u == s.(seenAll := s.seenAll + {t})
    ensures Leads(cfg, w0, s0, c, u)
  {
    Go(cfg, w0, s0, w, s, w.(pc := Claiming), s);
    Go(cfg, w0, s0, w.(pc := Claiming), s, c, u);
  }

  /** The inline walk expands its answer. */
  lemma {:induction false} ExpandOn<T(!new)>(cfg: Config<T>, w0: Walker<T>, s0: Shared<T>, w: Walker<T>, s: Shared<T>, hidden: set<T>, base: nat)
      returns (w': Walker<T>, s': Shared<T>)
    requires cfg.variant == Inline && Leads(cfg, w0, s0, w, s) && w.pc == Expanding && OnTrack(cfg, w, s, hidden, base)
    ensures Leads(cfg, w0, s0, w', s') && w'.pc == Head && w'.dir == w.dir && w'.iter == w.iter + 1
    ensures OnTrack(cfg, w', s', hidden, |w'.seen|) && w'.frontier <= w'.seen && |w'.seen| == base + |w'.frontier|
    decreases |w.answer| - w.next
  {
    if w.next >= |w.answer| {
      w', s' := w.(pc := Head, iter := w.iter + 1, frontier := w.found, found := {}), s;
      Go(cfg, w0, s0, w, s, w', s');
    } else {
      var r := w.answer[w.next];
      var t := Onward(w.dir, r);
      if t.Some? && t.value !in s.seenAll {
        var c, u := w.(next := w.next + 1, seen := w.seen + {t.value}, found := w.found + {t.value}), s.(seenAll := s.seenAll + {t.value});
        ClaimOn(cfg, w0, s0, w, s, c, u, t.value);
        OnTrackClaims(cfg, w, s, hidden, base, r, t.value);
        w', s' := ExpandOn(cfg, w0, s0, c, u, hidden, base);
      } else {
        Go(cfg, w0, s0, w, s, w.(next := w.next + 1), s);
        w', s' := ExpandOn(cfg, w0, s0, w.(next := w.next + 1), s, hidden, base);
      }
    }
  }

  /** A walk at the head of its loop. */
  ghost predicate AtHead<T(!new)>(cfg: Config<T>, w: Walker<T>, s: Shared<T>, hidden: set<T>)
  {
    w.pc == Head && w.frontier <= w.seen && OnTrack(cfg, w, s, hidden, |w.seen|) && w.iter + |w.frontier| <= |w.seen|
  }

  lemma NoCap<T(!new)>(cfg: Config<T>, w: Walker<T>, s: Shared<T>, hidden: set<T>)
    requires Roomy(cfg) && AtHead(cfg, w, s, hidden)
    ensures w.iter < cfg.maxIters && |s.seenAll| <= cfg.nodeCap
  {
    SubsetSize(w.seen, Tables(cfg));
    SubsetSize(s.seenAll, Tables(cfg));
  }

  lemma FullAnswer<T(!new)>(cfg: Config<T>, dir: Direction, frontier: set<T>) returns (answer: seq<Row<T>>)
    requires Roomy(cfg)
    ensures Answer(cfg, dir, frontier, answer) && !RowCapHit(cfg, answer)
  {
    var rows := Matching(cfg.rel, dir, frontier);
    answer := Listing(rows);
    SubsetSize(rows, cfg.rel);
  }

  /** The inline walk asks and gets a full answer. */
  lemma AskOn<T(!new)>(cfg: Config<T>, w0: Walker<T>, s0: Shared<T>, w: Walker<T>, s: Shared<T>, hidden: set<T>) returns (answer: seq<Row<T>>)
    requires cfg.variant == Inline && Roomy(cfg) && Leads(cfg, w0, s0, w, s) && AtHead(cfg, w, s, hidden) && w.frontier != {}
    ensures Leads(cfg, w0, s0, w.(pc := Collecting, answer := answer, next := 0), s) && forall r | r in answer :: r in cfg.rel
  {
    NoCap(cfg, w, s, hidden);
    var q := w.(pc := Query);
    Go(cfg, w0, s0, w, s, q, s);
    answer := FullAnswer(cfg, w.dir, w.frontier);
    Go(cfg, w0, s0, q, s, w.(pc := Collecting, answer := answer, next := 0), s);
  }

  /** One hop of the inline walk. */
  lemma HopOn<T(!new)>(cfg: Config<T>, w0: Walker<T>, s0: Shared<T>, w: Walker<T>, s: Shared<T>, hidden: set<T>)
      returns (w': Walker<T>, s': Shared<T>)
    requires cfg.variant == Inline && Roomy(cfg) && Leads(cfg, w0, s0, w, s) && AtHead(cfg, w, s, hidden) && w.frontier != {}
    ensures Leads(cfg, w0, s0, w', s') && w'.dir == w.dir && w'.iter == w.iter + 1 && AtHead(cfg, w', s', hidden)
  {
    var answer := AskOn(cfg, w0, s0, w, s, hidden);
    var u := CollectOn(cfg, w0, s0, w.(pc := Collecting, answer := answer, next := 0), s);
    var e := w.(pc := Expanding, answer := answer, next := 0, found := {});
    w', s' := ExpandOn(cfg, w0, s0, e, u, hidden, |w.seen|);
    assert |w.frontier| >= 1;
  }

  /** The walk to its end. */
  lemma {:induction false} WalkOn<T(!new)>(cfg: Config<T>, w0: Walker<T>, s0: Shared<T>, w: Walker<T>, s: Shared<T>, hidden: set<T>)
      returns (w': Walker<T>, s': Shared<T>)
    requires cfg.variant == Inline && Roomy(cfg) && Leads(cfg, w0, s0, w, s) && AtHead(cfg, w, s, hidden)
    ensures Leads(cfg, w0, s0, w', s') && w'.dir == w.dir && w'.pc == Done && OnTrack(cfg, w', s', hidden, |w'.seen|)
    decreases cfg.maxIters - w.iter
  {
    NoCap(cfg, w, s, hidden);
    if w.frontier == {} {
      var l := w.(pc := Leaving);
      Go(cfg, w0, s0, w, s, l, s);
      w', s' := w.(pc := Done), s;
      Go(cfg, w0, s0, l, s, w', s');
    } else {
      var m, u := HopOn(cfg, w0, s0, w, s, hidden);
      w', s' := WalkOn(cfg, w0, s0, m, u, hidden);
    }
  }

  lemma WalkFromStart<T(!new)>(cfg: Config<T>, dir: Direction, s: Shared<T>) returns (w': Walker<T>, s': Shared<T>)
    requires cfg.variant == Inline && Roomy(cfg) && !s.truncated && cfg.seed in s.seenAll && s.seenAll <= Tables(cfg)
    ensures Leads(cfg, Start(dir, cfg.seed), s, w', s') && w'.dir == dir && w'.pc == Done
    ensures OnTrack(cfg, w', s', s.seenAll - {cfg.seed}, |w'.seen|)
  {
    var w := Start(dir, cfg.seed);
    LeadsNowhere(cfg, w, s);
    w', s' := WalkOn(cfg, w, s, w, s, s.seenAll - {cfg.seed});
  }

  // ---------------------------------------------------------------------------
  // One walk after the other
  // ---------------------------------------------------------------------------

  function Opposite(dir: Direction): Direction
  {
    if dir == Up then Down else Up
  }

  /** The run has ended, and nothing was flagged. */
  ghost predicate Unflagged<T(!new)>(cfg: Config<T>, run: seq<State<T>>)
  {
    IsRun(cfg, run) && var end := run[|run| - 1]; end.up.pc == Done && end.down.pc == Done && !end.shared.truncated
  }

  /** The walk in direction `dir` runs first. */
  lemma FirstWalk<T(!new)>(cfg: Config<T>, dir: Direction) returns (run: seq<State<T>>)
    requires cfg.variant == Inline && Roomy(cfg)
    ensures IsRun(cfg, run)
    ensures var end := run[|run| - 1];
            && Side(end, Opposite(dir)) == Start(Opposite(dir), cfg.seed) && Side(end, dir).pc == Done
            && !end.shared.truncated && end.shared.seenAll <= Tables(cfg)
  {
    var s := Shared(Collected({}, []), {cfg.seed}, false);
    var a := State(Start(Up, cfg.seed), Start(Down, cfg.seed), s);
    assert EndsIn(cfg, [a], a);
    var w', s' := WalkFromStart(cfg, dir, s);
    var n: nat :| Solo(cfg, Start(dir, cfg.seed), s, w', s', n);
    Lift(cfg, a, dir, Start(dir, cfg.seed), s, n);
    run :| EndsIn(cfg, run, Put(a, dir, w', s'));
  }

  /** It has claimed its whole cone, and nothing else. */
  lemma FirstClaimsCone<T(!new)>(cfg: Config<T>, dir: Direction, run: seq<State<T>>, t: T)
    requires IsRun(cfg, run) && !run[|run| - 1].shared.truncated && Side(run[|run| - 1], dir).pc == Done
    requires Side(run[|run| - 1], Opposite(dir)) == Start(Opposite(dir), cfg.seed)
    ensures t in Side(run[|run| - 1], dir).seen <==> InCone(cfg, dir, t)
  {
    RunInv(cfg, run);
    var end := run[|run| - 1];
    if InCone(cfg, dir, t) {
      ConeClaimed(cfg, Side(end, dir), Hidden(cfg, Side(end, Opposite(dir))), end.shared.got.keys, t);
    }
  }

  /** Then the other walk runs, and cannot claim what the first one has. */
  lemma OneAfterTheOther<T(!new)>(cfg: Config<T>, dir: Direction) returns (run: seq<State<T>>)
    requires cfg.variant == Inline && Roomy(cfg)
    ensures Unflagged(cfg, run)
    ensures forall t | t != cfg.seed && InCone(cfg, dir, t) :: t !in Side(run[|run| - 1], Opposite(dir)).seen
  {
    var first := FirstWalk(cfg, dir);
    var a := first[|first| - 1];
    RunInv(cfg, first);
    var w', s' := WalkFromStart(cfg, Opposite(dir), a.shared);
    var n: nat :| Solo(cfg, Start(Opposite(dir), cfg.seed), a.shared, w', s', n);
    assert EndsIn(cfg, first, Put(a, Opposite(dir), Start(Opposite(dir), cfg.seed), a.shared));
    Lift(cfg, a, Opposite(dir), Start(Opposite(dir), cfg.seed), a.shared, n);
    run :| EndsIn(cfg, run, Put(a, Opposite(dir), w', s'));
    forall t | t != cfg.seed && InCone(cfg, dir, t) ensures t !in w'.seen {
      FirstClaimsCone(cfg, dir, first, t);
      assert s'.seenAll - w'.seen == a.shared.seenAll - {cfg.seed} && t in a.shared.seenAll;
    }
  }

  // ---------------------------------------------------------------------------
  // The rows that can be lost
  // ---------------------------------------------------------------------------

  /** The table lies on both sides of the seed. */
  ghost predicate OnBothSides<T(!new)>(cfg: Config<T>, t: T)
  {
    Ancestor(cfg, t) && Descendant(cfg, t)
  }

  /** Seen in direction `dir`, the row leaves a table on both sides of the seed for no table,
      or for one that is on that side only. */
  ghost predicate Branches<T(!new)>(cfg: Config<T>, dir: Direction, r: Row<T>)
  {
    && r in cfg.rel && At(dir, r).Some? && At(dir, r).value != cfg.seed && OnBothSides(cfg, At(dir, r).value)
    && (Onward(dir, r).Some? ==> !InCone(cfg, Opposite(dir), Onward(dir, r).value))
  }

  /** Both ends of the row lie on both sides of the seed. */
  ghost predicate InCycle<T(!new)>(cfg: Config<T>, r: Row<T>)
  {
    r.src.Some? && r.tgt.Some? && OnBothSides(cfg, r.src.value) && OnBothSides(cfg, r.tgt.value)
  }

  /** Whenever the caps are large enough, a row that branches off is lost by the run in
      which the opposite walk goes first. */
  lemma BranchIsLost<T(!new)>(cfg: Config<T>, dir: Direction, r: Row<T>) returns (run: seq<State<T>>)
    requires cfg.variant == Inline && Roomy(cfg) && Branches(cfg, dir, r)
    ensures Unflagged(cfg, run) && Relevant(cfg, r) && !Represented(run[|run| - 1].shared.got.rows, r)
  {
    run := OneAfterTheOther(cfg, Opposite(dir));
    assert Opposite(Opposite(dir)) == dir && InCone(cfg, Opposite(dir), At(dir, r).value);
    BranchUnclaimed(cfg, dir, r, run);
    ClaimedIsCollected(cfg, run, r);
  }

  lemma BranchUnclaimed<T(!new)>(cfg: Config<T>, dir: Direction, r: Row<T>, run: seq<State<T>>)
    requires Branches(cfg, dir, r) && IsRun(cfg, run) && At(dir, r).value !in Side(run[|run| - 1], dir).seen
    ensures Relevant(cfg, r) && !Claimed(run[|run| - 1], r)
  {
    RunInv(cfg, run);
    assert Sound(cfg, Side(run[|run| - 1], Opposite(dir)));
  }

  /** Everything of one side but what both sides share is claimed by its own walk, unless
      rows branch off. */
  lemma OneSideClaimed<T(!new)>(cfg: Config<T>, run: seq<State<T>>, dir: Direction, t: T)
    requires cfg.variant == Inline && Unflagged(cfg, run) && InCone(cfg, dir, t) && !InCone(cfg, Opposite(dir), t)
    requires forall r :: !Branches(cfg, dir, r)
    ensures t in Side(run[|run| - 1], dir).seen
  {
    RunInv(cfg, run);
    var end := run[|run| - 1];
    var w, o := Side(end, dir), Side(end, Opposite(dir));
    var S := w.seen + set u | u in Tables(cfg) && OnBothSides(cfg, u);
    forall r | r in cfg.rel && At(dir, r).Some? && At(dir, r).value in S && Onward(dir, r).Some?
      ensures Onward(dir, r).value in S
    {
      var u, v := At(dir, r).value, Onward(dir, r).value;
      assert v in Tables(cfg);
      ConeStep(cfg, dir, r);
      if !InCone(cfg, Opposite(dir), v) {
        assert !Branches(cfg, dir, r);
        assert Settled(cfg, w, Hidden(cfg, o), end.shared.got.keys, u);
      }
    }
    ConeHeld(cfg, dir, S, t);
  }

  /** Without branches every relevant row that is not inside a cycle with the seed is
      collected by every unflagged run. */
  lemma NothingElseIsLost<T(!new)>(cfg: Config<T>, run: seq<State<T>>, r: Row<T>)
    requires cfg.variant == Inline && Unflagged(cfg, run) && Relevant(cfg, r) && !InCycle(cfg, r)
    requires forall dir, q :: !Branches(cfg, dir, q)
    ensures Represented(run[|run| - 1].shared.got.rows, r)
  {
    RunInv(cfg, run);
    ClaimedIsCollected(cfg, run, r);
    var dir := if r.tgt.Some? && Ancestor(cfg, r.tgt.value) then Up else Down;
    var t := At(dir, r).value;
    if !InCone(cfg, Opposite(dir), t) {
      OneSideClaimed(cfg, run, dir, t);
    } else if t != cfg.seed {
      assert !Branches(cfg, dir, r);
      ConeStep(cfg, dir, r);
    }
  }

  /** Whatever the schedule, an unflagged run collects every relevant row that is not inside
      a cycle with the seed. */
  ghost predicate KeepsOutside<T(!new)>(cfg: Config<T>)
  {
    forall run: seq<State<T>>, r | Unflagged(cfg, run) && Relevant(cfg, r) && !InCycle(cfg, r) :: Represented(run[|run| - 1].shared.got.rows, r)
  }

  /** With caps large enough the inline trace keeps every such row in every schedule if and
      only if no row branches off a table, other than the seed, on both sides of the seed. */
  lemma KeepsOutsideIff<T(!new)>(cfg: Config<T>)
    requires cfg.variant == Inline && Roomy(cfg)
    ensures KeepsOutside(cfg) <==> forall dir, r :: !Branches(cfg, dir, r)
  {
    if dir, r :| Branches(cfg, dir, r) {
      var run := BranchIsLost(cfg, dir, r);
      assert !InCycle(cfg, r);
    } else {
      forall run: seq<State<T>>, r | Unflagged(cfg, run) && Relevant(cfg, r) && !InCycle(cfg, r) ensures Represented(run[|run| - 1].shared.got.rows, r) {
        NothingElseIsLost(cfg, run, r);
      }
    }
  }
}
