/**
 Resolving the sources of an expression (backend/plan_capture/plan_parser.py,
 `resolve_sources`): a recursion through the alias definitions that shares one set of
 visited ids.
 */
module PlanSources {
  import opened Graphs
  import opened Sequences
  import opened Wrappers

  type Id = nat

  /** One attribute reference in an expression. */
  datatype Ref = Ref(name: string, id: Id)

  /** `aliases` are the expressions by the id they define; `base` the tables of leaf columns. */
  datatype Symbols = Symbols(aliases: map<Id, seq<Ref>>, base: map<Id, Option<string>>)

  function Label(sym: Symbols, r: Ref): string
  {
    if r.id in sym.base && sym.base[r.id].Some? && sym.base[r.id].value != "" then sym.base[r.id].value + "." + r.name else r.name
  }

  /** An aliased id leads to the ids its expression refers to. */
  ghost function Definitions(sym: Symbols): set<(Id, Id)>
  {
    set i, r | i in sym.aliases && r in sym.aliases[i] :: (i, r.id)
  }

  /** The id is referred to by the expression, or by the definition of such an id. */
  ghost predicate Reached(sym: Symbols, expr: seq<Ref>, id: Id)
  {
    exists r :: r in expr && Reach(Definitions(sym), r.id, id)
  }

  /** The reference stands in the expression or in the definition of an id it reaches. */
  ghost predicate Mentions(sym: Symbols, expr: seq<Ref>, r: Ref)
  {
    r in expr || exists i :: i in sym.aliases && Reached(sym, expr, i) && r in sym.aliases[i]
  }

  /** All references of `refs` have been visited. */
  ghost predicate Covered(refs: seq<Ref>, visited: set<Id>)
  {
    forall r | r in refs :: r.id in visited
  }

  /** The definitions of the ids in `S` refer to visited ids only. */
  ghost predicate Complete(sym: Symbols, S: set<Id>, visited: set<Id>)
  {
    forall i | i in S && i in sym.aliases :: Covered(sym.aliases[i], visited)
  }

  ghost predicate AllReached(sym: Symbols, expr: seq<Ref>, S: set<Id>)
  {
    forall i | i in S :: Reached(sym, expr, i)
  }

  /** One mention is picked for each leaf in `S`. */
  ghost predicate Picks(sym: Symbols, expr: seq<Ref>, S: set<Id>, picked: map<Id, Ref>)
  {
    picked.Keys == S - sym.aliases.Keys && forall i | i in picked :: picked[i].id == i && Mentions(sym, expr, picked[i])
  }

  ghost function Labels(sym: Symbols, picked: map<Id, Ref>): set<string>
  {
    set i | i in picked :: Label(sym, picked[i])
  }

  /** What one call does: it visits `after - before`, all of it reached from the expression
      and complete, and labels the leaves among them. */
  ghost predicate Resolves(sym: Symbols, expr: seq<Ref>, before: set<Id>, after: set<Id>, picked: map<Id, Ref>)
  {
    && before <= after && Covered(expr, after) && Complete(sym, after - before, after)
    && AllReached(sym, expr, after - before) && Picks(sym, expr, after - before, picked)
  }

  lemma ReachedVia(sym: Symbols, expr: seq<Ref>, r: Ref, id: Id)
    requires r in expr && r.id in sym.aliases && Reached(sym, sym.aliases[r.id], id)
    ensures Reached(sym, expr, id)
  {
    var q :| q in sym.aliases[r.id] && Reach(Definitions(sym), q.id, id);
    EdgeReach(Definitions(sym), r.id, q.id);
    ReachTransitive(Definitions(sym), r.id, q.id, id);
  }

  lemma MentionsVia(sym: Symbols, expr: seq<Ref>, r: Ref, m: Ref)
    requires r in expr && r.id in sym.aliases && Mentions(sym, sym.aliases[r.id], m)
    ensures Mentions(sym, expr, m)
  {
    if m in sym.aliases[r.id] {
      ReachReflexive(Definitions(sym), r.id);
      assert Reached(sym, expr, r.id);
    } else {
      var i :| i in sym.aliases && Reached(sym, sym.aliases[r.id], i) && m in sym.aliases[i];
      ReachedVia(sym, expr, r, i);
    }
  }

  /** The state of the loop over the references, `done` of them behind it. */
  ghost predicate Resolving(sym: Symbols, expr: seq<Ref>, done: seq<Ref>, before: set<Id>, after: set<Id>, picked: map<Id, Ref>)
  {
    && before <= after && Covered(done, after) && Complete(sym, after - before, after)
    && AllReached(sym, expr, after - before) && Picks(sym, expr, after - before, picked)
  }

  lemma SkipRef(sym: Symbols, expr: seq<Ref>, done: seq<Ref>, before: set<Id>, after: set<Id>, picked: map<Id, Ref>, r: Ref)
    requires Resolving(sym, expr, done, before, after, picked) && r.id in after
    ensures Resolving(sym, expr, done + [r], before, after, picked)
  {
  }

  lemma LeafRef(sym: Symbols, expr: seq<Ref>, done: seq<Ref>, before: set<Id>, after: set<Id>, picked: map<Id, Ref>, r: Ref)
    requires Resolving(sym, expr, done, before, after, picked) && r in expr && r.id !in after && r.id !in sym.aliases
    ensures Resolving(sym, expr, done + [r], before, after + {r.id}, picked[r.id := r])
    ensures Labels(sym, picked[r.id := r]) == Labels(sym, picked) + {Label(sym, r)}
  {
    ReachReflexive(Definitions(sym), r.id);
    assert after + {r.id} - before == (after - before) + {r.id};
    LabelsGrow(sym, picked, map[r.id := r]);
    assert picked + map[r.id := r] == picked[r.id := r];
    assert Labels(sym, map[r.id := r]) == {Label(sym, r)} by {
      assert map[r.id := r][r.id] == r;
    }
  }

  lemma LabelsGrow(sym: Symbols, picked: map<Id, Ref>, more: map<Id, Ref>)
    requires picked.Keys !! more.Keys
    ensures Labels(sym, picked + more) == Labels(sym, picked) + Labels(sym, more)
  {
    forall l | l in Labels(sym, picked) ensures l in Labels(sym, picked + more) {
      var i :| i in picked && Label(sym, picked[i]) == l;
      assert (picked + more)[i] == picked[i];
    }
    forall l | l in Labels(sym, more) ensures l in Labels(sym, picked + more) {
      var i :| i in more && Label(sym, more[i]) == l;
      assert (picked + more)[i] == more[i];
    }
  }

  /** A reference to an alias: the recursive call has visited `sub` on top of it. */
  lemma AliasRef(sym: Symbols, expr: seq<Ref>, done: seq<Ref>, before: set<Id>, after: set<Id>, picked: map<Id, Ref>, r: Ref,
                 end: set<Id>, sub: map<Id, Ref>)
    requires Resolving(sym, expr, done, before, after, picked) && r in expr && r.id !in after && r.id in sym.aliases
    requires Resolves(sym, sym.aliases[r.id], after + {r.id}, end, sub)
    ensures Resolving(sym, expr, done + [r], before, end, picked + sub)
    ensures Labels(sym, picked + sub) == Labels(sym, picked) + Labels(sym, sub)
  {
    var added := end - (after + {r.id});
    assert end - before == (after - before) + {r.id} + added;
    ReachReflexive(Definitions(sym), r.id);
    forall i | i in added ensures Reached(sym, expr, i) {
      ReachedVia(sym, expr, r, i);
    }
    forall i | i in sub ensures Mentions(sym, expr, sub[i]) {
      MentionsVia(sym, expr, r, sub[i]);
    }
    LabelsGrow(sym, picked, sub);
  }

  /** De-duplication that keeps the first of each. */
  method Unique(raw: seq<string>) returns (out: seq<string>)
    ensures NoDuplicates(out) && Members(out) == Members(raw)
  {
    out := [];
    for i := 0 to |raw|
      invariant NoDuplicates(out) && Members(out) == Members(raw[..i])
    {
      MembersAppend(raw[..i], raw[i]);
      MembersAppend(out, raw[i]);
      assert raw[..i + 1] == raw[..i] + [raw[i]];
      if raw[i] !in out {
        assert raw[i] !in Members(out);
        out := out + [raw[i]];
      } else {
        assert raw[i] in Members(out);
      }
    }
    assert raw[..|raw|] == raw;
  }

  lemma MembersConcat(a: seq<string>, b: seq<string>)
    ensures Members(a + b) == Members(a) + Members(b)
  {
  }

  /** The recursion. It ends because every call first visits an alias that no caller has. */
  method Resolve(sym: Symbols, expr: seq<Ref>, before: set<Id>) returns (sources: seq<string>, after: set<Id>, ghost picked: map<Id, Ref>)
    ensures Resolves(sym, expr, before, after, picked)
    ensures NoDuplicates(sources) && Members(sources) == Labels(sym, picked)
    decreases sym.aliases.Keys - before
  {
    var raw: seq<string> := [];
    after, picked := before, map[];
    for i := 0 to |expr|
      invariant Resolving(sym, expr, expr[..i], before, after, picked) && Members(raw) == Labels(sym, picked)
    {
      var r := expr[i];
      assert expr[..i + 1] == expr[..i] + [r];
      if r.id in after {
        SkipRef(sym, expr, expr[..i], before, after, picked, r);
      } else if r.id in sym.aliases {
        var sub, end, subPicked := Resolve(sym, sym.aliases[r.id], after + {r.id});
        AliasRef(sym, expr, expr[..i], before, after, picked, r, end, subPicked);
        MembersConcat(raw, sub);
        raw, after, picked := raw + sub, end, picked + subPicked;
      } else {
        LeafRef(sym, expr, expr[..i], before, after, picked, r);
        MembersAppend(raw, Label(sym, r));
        raw, after, picked := raw + [Label(sym, r)], after + {r.id}, picked[r.id := r];
      }
    }
    assert expr[..|expr|] == expr;
    sources := Unique(raw);
  }

  /** One mention of each leaf that the expression reaches. */
  ghost predicate IsChoice(sym: Symbols, expr: seq<Ref>, picked: map<Id, Ref>)
  {
    && (forall i :: i in picked <==> Reached(sym, expr, i) && i !in sym.aliases)
    && forall i | i in picked :: picked[i].id == i && Mentions(sym, expr, picked[i])
  }

  lemma VisitedIsReached(sym: Symbols, expr: seq<Ref>, after: set<Id>, picked: map<Id, Ref>)
    requires Resolves(sym, expr, {}, after, picked)
    ensures IsChoice(sym, expr, picked)
  {
    assert after - {} == after;
    forall i | Reached(sym, expr, i) ensures i in after {
      var r :| r in expr && Reach(Definitions(sym), r.id, i);
      var n: nat :| Steps(Definitions(sym), r.id, i, n);
      forall e | e in Definitions(sym) && e.0 in after ensures e.1 in after {
        var q :| q in sym.aliases[e.0] && q.id == e.1;
      }
      ClosedHoldsReach(Definitions(sym), after, r.id, i, n);
    }
  }

  ghost predicate ExactSources(sym: Symbols, expr: seq<Ref>, sources: seq<string>)
  {
    NoDuplicates(sources) && exists picked :: IsChoice(sym, expr, picked) && Members(sources) == Labels(sym, picked)
  }

  /** The sources are, without repetition, the labels of exactly the leaves that the
      expression reaches through the aliases, however those are tangled. */
  method SourcesOf(sym: Symbols, expr: seq<Ref>) returns (sources: seq<string>)
    ensures ExactSources(sym, expr, sources)
  {
    ghost var picked;
    var after;
    sources, after, picked := Resolve(sym, expr, {});
    VisitedIsReached(sym, expr, after, picked);
  }

  /** Every mention of a leaf uses the same name. */
  ghost predicate NamesAgree(sym: Symbols, expr: seq<Ref>)
  {
    forall r, q | Mentions(sym, expr, r) && Mentions(sym, expr, q) && r.id == q.id :: r == q
  }

  lemma MentionIsReached(sym: Symbols, expr: seq<Ref>, r: Ref)
    requires Mentions(sym, expr, r)
    ensures Reached(sym, expr, r.id)
  {
    ReachReflexive(Definitions(sym), r.id);
    if r !in expr {
      var i :| i in sym.aliases && Reached(sym, expr, i) && r in sym.aliases[i];
      var q :| q in expr && Reach(Definitions(sym), q.id, i);
      EdgeReach(Definitions(sym), i, r.id);
      ReachTransitive(Definitions(sym), q.id, i, r.id);
    }
  }

  /** Some mention of a leaf has this label. */
  ghost predicate LabelsMention(sym: Symbols, expr: seq<Ref>, text: string)
  {
    exists r :: Mentions(sym, expr, r) && r.id !in sym.aliases && Label(sym, r) == text
  }

  lemma ChoiceLabels(sym: Symbols, expr: seq<Ref>, picked: map<Id, Ref>, text: string)
    requires IsChoice(sym, expr, picked) && NamesAgree(sym, expr)
    ensures text in Labels(sym, picked) <==> LabelsMention(sym, expr, text)
  {
    if text in Labels(sym, picked) {
      var i :| i in picked && Label(sym, picked[i]) == text;
      assert Mentions(sym, expr, picked[i]);
    }
    if r :| Mentions(sym, expr, r) && r.id !in sym.aliases && Label(sym, r) == text {
      MentionIsReached(sym, expr, r);
      assert picked[r.id] == r;
    }
  }

  /** When names agree the sources are the labels of all mentions of leaves. */
  lemma SourcesAreLabels(sym: Symbols, expr: seq<Ref>, sources: seq<string>, text: string)
    requires ExactSources(sym, expr, sources) && NamesAgree(sym, expr)
    ensures text in sources <==> LabelsMention(sym, expr, text)
  {
    var picked :| IsChoice(sym, expr, picked) && Members(sources) == Labels(sym, picked);
    assert text in sources <==> text in Members(sources);
    ChoiceLabels(sym, expr, picked, text);
  }

  /** The position of the last dot. */
  function LastDot(s: string): Option<nat>
  {
    if s == "" then None else if s[|s| - 1] == '.' then Some(|s| - 1) else LastDot(s[..|s| - 1])
  }

  lemma {:induction false} LastDotFound(s: string, i: nat)
    requires i < |s| && s[i] == '.' && forall k | i < k < |s| :: s[k] != '.'
    ensures LastDot(s) == Some(i)
  {
    if i < |s| - 1 {
      LastDotFound(s[..|s| - 1], i);
    }
  }

  lemma {:induction false} NoDotFound(s: string)
    requires '.' !in s
    ensures LastDot(s) == None
  {
    if s != "" {
      NoDotFound(s[..|s| - 1]);
    }
  }

  /** The table that a leaf was read from, where one is known. */
  function TableOf(sym: Symbols, id: Id): string
  {
    if id in sym.base && sym.base[id].Some? then sym.base[id].value else ""
  }

  /** A label is read back: what stands before its last dot is the leaf's table, what stands
      behind it is the name; a label without a dot is the name of a leaf without a table. */
  lemma LabelIsReadBack(sym: Symbols, r: Ref)
    requires '.' !in r.name
    ensures match LastDot(Label(sym, r))
            case Some(i) => i < |Label(sym, r)| && Label(sym, r)[..i] == TableOf(sym, r.id) != "" && Label(sym, r)[i + 1..] == r.name
            case None => Label(sym, r) == r.name && TableOf(sym, r.id) == ""
  {
    var table, text := TableOf(sym, r.id), Label(sym, r);
    if table != "" {
      assert forall k | |table| < k < |text| :: text[k] == r.name[k - |table| - 1];
      LastDotFound(text, |table|);
    } else {
      NoDotFound(text);
    }
  }
}
