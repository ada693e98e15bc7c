/**
 The parent chain of a plan's nodes, kept as a stack of indents
 (backend/plan_capture/plan_parser.py, `build_symbol_tables`).
 */
module PlanTree {
  import opened Wrappers

  /** One line of the plan: its indent, and the table it names if it names one. */
  datatype Node = Node(indent: nat, name: Option<string>)

  /** The parent of a node is the latest earlier node that is indented less. */
  ghost predicate IsParent(nodes: seq<Node>, i: nat, j: nat)
    requires i < |nodes|
  {
    j < i && nodes[j].indent < nodes[i].indent && forall k | j < k < i :: nodes[k].indent >= nodes[i].indent
  }

  /** `j` is the node `i` itself, or its parent, or the parent's parent, and so on. */
  ghost predicate InChain(nodes: seq<Node>, i: nat, j: nat)
    requires i < |nodes|
    decreases i
  {
    j == i || exists p :: 0 <= p < i && IsParent(nodes, i, p) && InChain(nodes, p, j)
  }

  /** Everything after `j` up to `i` is indented more than `j`. */
  ghost predicate Above(nodes: seq<Node>, i: nat, j: nat)
    requires i < |nodes|
  {
    j <= i && forall k | j < k <= i :: nodes[j].indent < nodes[k].indent
  }

  lemma ParentIsAbove(nodes: seq<Node>, i: nat, p: nat, j: nat)
    requires i < |nodes| && IsParent(nodes, i, p)
    ensures j != i ==> (Above(nodes, i, j) <==> Above(nodes, p, j))
  {
    if Above(nodes, i, j) && j != i {
      assert j <= p;
    }
    if Above(nodes, p, j) {
      forall k | j < k <= i ensures nodes[j].indent < nodes[k].indent {
        assert nodes[j].indent <= nodes[p].indent;
      }
    }
  }

  lemma {:induction false} SomeParent(nodes: seq<Node>, i: nat, j: nat) returns (p: nat)
    requires j < i < |nodes| && nodes[j].indent < nodes[i].indent
    ensures IsParent(nodes, i, p)
  {
    p := i - 1;
    while nodes[p].indent >= nodes[i].indent
      invariant j <= p < i && forall k | p < k < i :: nodes[k].indent >= nodes[i].indent
      decreases p
    {
      p := p - 1;
    }
  }

  /** The chain of parents is exactly the nodes with nothing at or below their indent in
      between. */
  lemma {:induction false} ChainIsAbove(nodes: seq<Node>, i: nat, j: nat)
    requires i < |nodes|
    ensures InChain(nodes, i, j) <==> Above(nodes, i, j)
    decreases i
  {
    if p: nat :| p < i && IsParent(nodes, i, p) && InChain(nodes, p, j) {
      ChainIsAbove(nodes, p, j);
      ParentIsAbove(nodes, i, p, j);
    }
    if Above(nodes, i, j) && j != i {
      assert nodes[j].indent < nodes[i].indent;
      var p := SomeParent(nodes, i, j);
      ParentIsAbove(nodes, i, p, j);
      ChainIsAbove(nodes, p, j);
    }
  }

  /** `at` are the positions of the nodes before `n` that are above everything after them:
      the chain of the last node. */
  ghost predicate Stacked(nodes: seq<Node>, n: nat, at: seq<nat>, stack: seq<Node>)
  {
    && n <= |nodes| && |at| == |stack|
    && (forall k | 0 <= k < |at| :: at[k] < n && stack[k] == nodes[at[k]])
    && (forall j, k | 0 <= j < k < |at| :: at[j] < at[k] && stack[j].indent < stack[k].indent)
    && (forall j: nat :: j in at <==> j < n && Above(nodes, n - 1, j))
  }

  /** `while stack and stack[-1][0] >= indent: stack.pop()` */
  method PopDeeper(stack: seq<Node>, indent: nat) returns (k: nat)
    ensures k <= |stack| && (k > 0 ==> stack[k - 1].indent < indent)
    ensures forall j | k <= j < |stack| :: stack[j].indent >= indent
  {
    k := |stack|;
    while k > 0 && stack[k - 1].indent >= indent
      invariant k <= |stack| && forall j | k <= j < |stack| :: stack[j].indent >= indent
    {
      k := k - 1;
    }
  }

  /** The first name from the top of the stack down. */
  method FindName(stack: seq<Node>) returns (name: Option<string>, ghost k: int)
    ensures -1 <= k < |stack| && forall j | k < j < |stack| :: stack[j].name == None
    ensures name == if k < 0 then None else stack[k].name
    ensures k >= 0 ==> name.Some?
  {
    var i := |stack|;
    while i > 0 && stack[i - 1].name == None
      invariant 0 <= i <= |stack| && forall j | i <= j < |stack| :: stack[j].name == None
    {
      i := i - 1;
    }
    k := i - 1;
    name := if i > 0 then stack[i - 1].name else None;
  }

  lemma PopStacked(nodes: seq<Node>, n: nat, at: seq<nat>, stack: seq<Node>, k: nat)
    requires n < |nodes| && Stacked(nodes, n, at, stack) && k <= |stack|
    requires k > 0 ==> stack[k - 1].indent < nodes[n].indent
    requires forall j | k <= j < |stack| :: stack[j].indent >= nodes[n].indent
    ensures Stacked(nodes, n + 1, at[..k] + [n], stack[..k] + [nodes[n]])
  {
    var at', stack' := at[..k] + [n], stack[..k] + [nodes[n]];
    forall j | 0 <= j < k ensures stack[j].indent < nodes[n].indent {
      assert j < k - 1 ==> stack[j].indent < stack[k - 1].indent;
    }
    forall j: nat ensures j in at' <==> j < n + 1 && Above(nodes, n, j) {
      if j < n && Above(nodes, n, j) {
        assert Above(nodes, n - 1, j) && j in at;
        var m :| 0 <= m < |at| && at[m] == j;
        assert stack[m] == nodes[j] && nodes[j].indent < nodes[n].indent;
        assert at'[m] == j;
      }
      if j in at' {
        KeptIsAbove(nodes, n, at, stack, k, j);
      }
    }
  }

  lemma KeptIsAbove(nodes: seq<Node>, n: nat, at: seq<nat>, stack: seq<Node>, k: nat, j: nat)
    requires n < |nodes| && Stacked(nodes, n, at, stack) && k <= |stack| && j in at[..k] + [n]
    requires forall m | 0 <= m < k :: stack[m].indent < nodes[n].indent
    ensures j <= n && Above(nodes, n, j)
  {
    if j != n {
      var m :| 0 <= m < k && at[m] == j;
      assert j in at;
    }
  }

  /** The name of the nearest node of the chain of `i` that has one. */
  ghost predicate IsContext(nodes: seq<Node>, i: nat, name: Option<string>)
    requires i < |nodes|
  {
    match name
    case None => forall j: nat | InChain(nodes, i, j) :: j < |nodes| && nodes[j].name == None
    case Some(_) => exists j: nat :: j <= i && InChain(nodes, i, j) && nodes[j].name == name
                                 && forall m: nat | j < m <= i && InChain(nodes, i, m) :: nodes[m].name == None
  }

  lemma TopNameIsContext(nodes: seq<Node>, n: nat, at: seq<nat>, stack: seq<Node>, name: Option<string>, k: int)
    requires n < |nodes| && Stacked(nodes, n + 1, at, stack)
    requires -1 <= k < |stack| && forall j | k < j < |stack| :: stack[j].name == None
    requires name == (if k < 0 then None else stack[k].name) && (k >= 0 ==> name.Some?)
    ensures IsContext(nodes, n, name)
  {
    forall j: nat ensures InChain(nodes, n, j) <==> j in at {
      ChainIsAbove(nodes, n, j);
    }
    if k >= 0 {
      assert at[k] in at;
      forall m: nat | at[k] < m <= n && InChain(nodes, n, m) ensures nodes[m].name == None {
        var x :| 0 <= x < |at| && at[x] == m;
        assert x > k;
      }
    }
  }

  /** Each node's context is the nearest named node of its own chain of parents. */
  method Contexts(nodes: seq<Node>) returns (names: seq<Option<string>>)
    ensures |names| == |nodes| && forall i | 0 <= i < |nodes| :: IsContext(nodes, i, names[i])
  {
    names := [];
    var stack: seq<Node> := [];
    ghost var at: seq<nat> := [];
    for n := 0 to |nodes|
      invariant Stacked(nodes, n, at, stack)
      invariant |names| == n && forall i | 0 <= i < n :: IsContext(nodes, i, names[i])
    {
      var k := PopDeeper(stack, nodes[n].indent);
      PopStacked(nodes, n, at, stack, k);
      stack := stack[..k];
      var name := nodes[n].name;
      ghost var top := k;
      if name == None {
        name, top := FindName(stack);
      }
      at, stack := at[..k] + [n], stack + [nodes[n]];
      TopNameIsContext(nodes, n, at, stack, name, top);
      names := names + [name];
    }
  }
}
