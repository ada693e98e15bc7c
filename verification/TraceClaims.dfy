/**
 What a trace collects in terms of the tables its walks claimed, without any hypothesis on
 the lineage: the exact condition for the inline walk, whose two directions share one
 `seen` set, to lose nothing.
 */
module TraceClaims {
  import opened Trace
  import opened Wrappers

  /** The up walk has claimed the row's target, or the down walk its source. */
  ghost predicate Claimed<T(!new)>(a: State<T>, r: Row<T>)
  {
    (r.tgt.Some? && r.tgt.value in a.up.seen) || (r.src.Some? && r.src.value in a.down.seen)
  }

  ghost predicate CollectedClaimed<T(!new)>(cfg: Config<T>, a: State<T>)
  {
    forall r | r in a.shared.got.rows :: r in cfg.rel && Claimed(a, r)
  }

  lemma StepAdds<T(!new)>(cfg: Config<T>, w: Walker<T>, s: Shared<T>, w': Walker<T>, s': Shared<T>)
    requires StepWalker(cfg, w, s, w', s')
    ensures w.seen <= w'.seen && forall r | r in s'.got.rows :: r in s.got.rows || r in w.answer
  {
    if w.pc == Collecting && cfg.variant == Patched && StepCollect(cfg, w, s, w', s') {
      AddAllFacts(s.got, w.answer);
    }
  }

  ghost predicate ClaimInv<T(!new)>(cfg: Config<T>, a: State<T>)
  {
    Inv(cfg, a) && CollectedClaimed(cfg, a)
  }

  lemma ClaimStepUp<T(!new)>(cfg: Config<T>, a: State<T>, b: State<T>)
    requires ClaimInv(cfg, a) && b.down == a.down && StepWalker(cfg, a.up, a.shared, b.up, b.shared)
    ensures ClaimInv(cfg, b)
  {
    StepUp(cfg, a, b);
    StepAdds(cfg, a.up, a.shared, b.up, b.shared);
  }

  lemma ClaimStepDown<T(!new)>(cfg: Config<T>, a: State<T>, b: State<T>)
    requires ClaimInv(cfg, a) && b.up == a.up && StepWalker(cfg, a.down, a.shared, b.down, b.shared)
    ensures ClaimInv(cfg, b)
  {
    StepDown(cfg, a, b);
    StepAdds(cfg, a.down, a.shared, b.down, b.shared);
  }

  lemma {:induction false} ClaimRun<T(!new)>(cfg: Config<T>, run: seq<State<T>>)
    requires IsRun(cfg, run)
    ensures ClaimInv(cfg, run[|run| - 1])
  {
    if |run| == 1 {
      InitInv(cfg, run[0]);
    } else {
      ClaimRun(cfg, run[..|run| - 1]);
      var a, b := run[|run| - 2], run[|run| - 1];
      assert Next(cfg, a, b);
      if b.down == a.down && StepWalker(cfg, a.up, a.shared, b.up, b.shared) {
        ClaimStepUp(cfg, a, b);
      } else {
        ClaimStepDown(cfg, a, b);
      }
    }
  }

  lemma KeyIsRow<T(!new)>(cfg: Config<T>, got: Collected<T>, r: Row<T>)
    requires CollectedOk(cfg, got)
    ensures KeyOf(r) in got.keys <==> Represented(got.rows, r)
  {
    if KeyOf(r) in got.keys {
      var q :| q in got.rows && KeyOf(q) == KeyOf(r);
      assert Agree(q, r);
    }
    if Represented(got.rows, r) {
      var q :| q in got.rows && Agree(q, r);
      assert KeyOf(q) == KeyOf(r);
    }
  }

  /** In every interleaving of either variant that ends unflagged, exactly the rows into a
      table that the up walk claimed or out of one that the down walk claimed are collected. */
  lemma ClaimedIsCollected<T(!new)>(cfg: Config<T>, run: seq<State<T>>, r: Row<T>)
    requires IsRun(cfg, run) && r in cfg.rel
    requires var end := run[|run| - 1]; end.up.pc == Done && end.down.pc == Done && !end.shared.truncated
    ensures KeyOf(r) in run[|run| - 1].shared.got.keys <==> Claimed(run[|run| - 1], r)
    ensures Represented(run[|run| - 1].shared.got.rows, r) <==> Claimed(run[|run| - 1], r)
  {
    ClaimRun(cfg, run);
    var end := run[|run| - 1];
    var keys := end.shared.got.keys;
    KeyIsRow(cfg, end.shared.got, r);
    if Represented(end.shared.got.rows, r) {
      var q :| q in end.shared.got.rows && Agree(q, r);
      assert Claimed(end, q) && q.src == r.src && q.tgt == r.tgt;
    }
    if r.tgt.Some? && r.tgt.value in end.up.seen {
      assert Settled(cfg, end.up, Hidden(cfg, end.down), keys, r.tgt.value);
    }
    if r.src.Some? && r.src.value in end.down.seen {
      assert Settled(cfg, end.down, Hidden(cfg, end.up), keys, r.src.value);
    }
  }

  /** So such a run is exact if and only if the walks claimed, each on its side, an end of
      every relevant row. */
  lemma ExactIffClaimed<T(!new)>(cfg: Config<T>, run: seq<State<T>>)
    requires IsRun(cfg, run)
    requires var end := run[|run| - 1]; end.up.pc == Done && end.down.pc == Done && !end.shared.truncated
    ensures Exact(cfg, run[|run| - 1].shared.got) <==> forall r | Relevant(cfg, r) :: Claimed(run[|run| - 1], r)
  {
    RunInv(cfg, run);
    forall r | Relevant(cfg, r) ensures KeyOf(r) in run[|run| - 1].shared.got.keys <==> Claimed(run[|run| - 1], r) {
      ClaimedIsCollected(cfg, run, r);
    }
  }
}
