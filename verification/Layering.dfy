/**
 The layout of the lineage map (backend/excel_export.py, `_layer_nodes`): back-edges
 are removed by a depth-first search with an explicit stack, then longest-path
 layering (Kahn's algorithm) runs on what is left.
 */
module Layering {
  import opened Graphs
  import opened Sequences

  datatype Color = White | Gray | Black

  /** One stack frame: a node and the neighbours its iterator has not yielded yet.
      The order in which an iterator yields is left open (the source sorts by id). */
  datatype Frame<T> = Frame(node: T, unread: set<T>)

  /** The edges of an adjacency map. */
  function EdgesOf<T(==)>(adj: map<T, set<T>>): set<(T, T)>
  {
    set u, v | u in adj && v in adj[u] :: (u, v)
  }

  /** The edges of `adj` between coloured nodes: what the search has to look at. */
  function EdgesWithin<T(==)>(adj: map<T, set<T>>, nodes: set<T>): set<(T, T)>
  {
    set u, v | u in adj && u in nodes && v in adj[u] && v in nodes :: (u, v)
  }

  function Whites<T(==)>(color: map<T, Color>): set<T>
  {
    set n | n in color && color[n] == White
  }

  /** Neighbours still to be read, plus one per frame. */
  function Work<T>(stack: seq<Frame<T>>): nat
  {
    if stack == [] then 0 else Work(stack[..|stack| - 1]) + |stack[|stack| - 1].unread| + 1
  }

  // ---------------------------------------------------------------------------
  // The invariant of the search
  // ---------------------------------------------------------------------------

  /** The gray nodes are exactly the stack, and the stack is a path of kept edges. */
  ghost predicate StackIsGray<T(!new)>(color: map<T, Color>, stack: seq<Frame<T>>, F: set<(T, T)>)
  {
    && (forall i | 0 <= i < |stack| :: stack[i].node in color && color[stack[i].node] == Gray)
    && (forall i, j | 0 <= i < j < |stack| :: stack[i].node != stack[j].node)
    && (forall i | 0 < i < |stack| :: (stack[i - 1].node, stack[i].node) in F)
    && (forall n | n in color && color[n] == Gray :: OnStack(stack, n))
  }

  ghost predicate OnStack<T(!new)>(stack: seq<Frame<T>>, n: T)
  {
    exists i :: 0 <= i < |stack| && stack[i].node == n
  }

  /** `v` is the node directly above `u` on the stack. */
  ghost predicate Above<T(!new)>(stack: seq<Frame<T>>, u: T, v: T)
  {
    exists i :: 0 < i < |stack| && stack[i - 1].node == u && stack[i].node == v
  }

  /** `v` is still to be read from the iterator of `u`. */
  ghost predicate Unread<T(!new)>(stack: seq<Frame<T>>, u: T, v: T)
  {
    exists i :: 0 <= i < |stack| && stack[i].node == u && v in stack[i].unread
  }

  /** Finished nodes are numbered in finishing order; a kept edge leads to a finished
      node of smaller number, or to the node directly above on the stack. */
  ghost predicate KeptOrdered<T(!new)>(color: map<T, Color>, stack: seq<Frame<T>>, F: set<(T, T)>,
                                       rank: map<T, nat>)
  {
    && rank.Keys == (set n | n in color && color[n] == Black)
    && (forall n | n in rank :: rank[n] < |rank|)
    && forall e | e in F :: EdgeOrdered(color, stack, rank, e)
  }

  ghost predicate EdgeOrdered<T(!new)>(color: map<T, Color>, stack: seq<Frame<T>>, rank: map<T, nat>, e: (T, T))
  {
    && e.0 in color && e.1 in color && color[e.0] != White
    && (color[e.1] == Black || (color[e.1] == Gray && color[e.0] == Gray && Above(stack, e.0, e.1)))
    && (color[e.0] == Black ==> color[e.1] == Black && e.0 in rank && e.1 in rank && rank[e.1] < rank[e.0])
  }

  /** An edge out of a visited node is kept, dropped because it closes a cycle of kept
      edges, or still unread. */
  ghost predicate Examined<T(!new)>(adj: map<T, set<T>>, color: map<T, Color>, stack: seq<Frame<T>>,
                                    F: set<(T, T)>)
  {
    forall u, v | u in color && color[u] != White && u in adj && v in adj[u] && v in color ::
      (u, v) in F || Unread(stack, u, v) || Reach(F, v, u)
  }

  ghost predicate DfsInv<T(!new)>(nodes: set<T>, adj: map<T, set<T>>, color: map<T, Color>,
                                  stack: seq<Frame<T>>, F: set<(T, T)>, rank: map<T, nat>)
  {
    && color.Keys == nodes && nodes <= adj.Keys
    && (forall e | e in F :: e.0 in adj && e.1 in adj[e.0])
    && StackIsGray(color, stack, F)
    && (forall i | 0 <= i < |stack| :: stack[i].unread <= adj[stack[i].node])
    && KeptOrdered(color, stack, F, rank)
    && Examined(adj, color, stack, F)
  }

  // ---------------------------------------------------------------------------
  // One lemma for each thing the search does
  // ---------------------------------------------------------------------------

  /** The stack is a walk, so its top is reachable from every frame. */
  lemma {:induction false} StackWalk<T(!new)>(color: map<T, Color>, stack: seq<Frame<T>>, F: set<(T, T)>, i: nat, j: nat)
    requires StackIsGray(color, stack, F) && i <= j < |stack|
    ensures Steps(F, stack[i].node, stack[j].node, j - i)
  {
    if i < j {
      StackWalk(color, stack, F, i, j - 1);
      assert (stack[j - 1].node, stack[j].node) in F;
    }
  }

  /** The iterator of frame `k` yields `v`. */
  function Read<T>(stack: seq<Frame<T>>, k: nat, v: T): seq<Frame<T>>
    requires k < |stack|
  {
    stack[k := Frame(stack[k].node, stack[k].unread - {v})]
  }

  lemma ReadWork<T>(stack: seq<Frame<T>>, v: T)
    requires stack != [] && v in stack[|stack| - 1].unread
    ensures Work(Read(stack, |stack| - 1, v)) < Work(stack)
  {
    assert Read(stack, |stack| - 1, v)[..|stack| - 1] == stack[..|stack| - 1];
  }

  lemma ReadView<T(!new)>(stack: seq<Frame<T>>, k: nat, v: T)
    requires k < |stack|
    ensures forall n :: OnStack(stack, n) ==> OnStack(Read(stack, k, v), n)
    ensures forall a, b :: Above(stack, a, b) ==> Above(Read(stack, k, v), a, b)
    ensures forall a, b :: Unread(stack, a, b) ==> Unread(Read(stack, k, v), a, b) || (a == stack[k].node && b == v)
  {
    var after := Read(stack, k, v);
    forall n | OnStack(stack, n) ensures OnStack(after, n) {
      var i :| 0 <= i < |stack| && stack[i].node == n;
      assert after[i].node == n;
    }
    forall a, b | Above(stack, a, b) ensures Above(after, a, b) {
      var i :| 0 < i < |stack| && stack[i - 1].node == a && stack[i].node == b;
      assert after[i - 1].node == a && after[i].node == b;
    }
    forall a, b | Unread(stack, a, b) && !(a == stack[k].node && b == v) ensures Unread(after, a, b) {
      var i :| 0 <= i < |stack| && stack[i].node == a && b in stack[i].unread;
      assert after[i].node == a && b in after[i].unread;
    }
  }

  /** Reading one neighbour keeps the invariant once the edge to it is settled. */
  lemma ReadKeeps<T(!new)>(nodes: set<T>, adj: map<T, set<T>>, color: map<T, Color>, stack: seq<Frame<T>>,
                           F: set<(T, T)>, rank: map<T, nat>, k: nat, v: T)
    requires DfsInv(nodes, adj, color, stack, F, rank) && k < |stack|
    requires v in nodes ==> (stack[k].node, v) in F || Reach(F, v, stack[k].node)
    ensures DfsInv(nodes, adj, color, Read(stack, k, v), F, rank)
  {
    var after := Read(stack, k, v);
    assert forall i | 0 <= i < |stack| :: after[i].node == stack[i].node && after[i].unread <= stack[i].unread;
    assert StackIsGray(color, after, F) by { ReadView(stack, k, v); }
    assert KeptOrdered(color, after, F, rank) by { ReadView(stack, k, v); }
    assert Examined(adj, color, after, F) by { ReadView(stack, k, v); }
  }

  /** A gray neighbour is on the stack, so the edge to it closes a cycle. */
  lemma GrayClosesCycle<T(!new)>(color: map<T, Color>, stack: seq<Frame<T>>, F: set<(T, T)>, v: T)
    requires StackIsGray(color, stack, F) && stack != [] && v in color && color[v] == Gray
    ensures Reach(F, v, stack[|stack| - 1].node)
  {
    assert OnStack(stack, v);
    var i: nat :| i < |stack| && stack[i].node == v;
    StackWalk(color, stack, F, i, |stack| - 1);
  }

  lemma KeepsReach<T(!new)>(F: set<(T, T)>, F': set<(T, T)>)
    requires F <= F'
    ensures forall a, b :: Reach(F, a, b) ==> Reach(F', a, b)
  {
    forall a, b | Reach(F, a, b) ensures Reach(F', a, b) {
      ReachMonotone(F, F', a, b);
    }
  }

  /** Keeping the edge to a finished neighbour. */
  lemma KeepFinished<T(!new)>(nodes: set<T>, adj: map<T, set<T>>, color: map<T, Color>, stack: seq<Frame<T>>,
                              F: set<(T, T)>, rank: map<T, nat>, v: T)
    requires DfsInv(nodes, adj, color, stack, F, rank) && stack != []
    requires v in stack[|stack| - 1].unread && v in color && color[v] == Black
    ensures DfsInv(nodes, adj, color, stack, F + {(stack[|stack| - 1].node, v)}, rank)
  {
    var u := stack[|stack| - 1].node;
    var F' := F + {(u, v)};
    KeepsReach(F, F');
  }

  lemma PushView<T(!new)>(stack: seq<Frame<T>>, f: Frame<T>)
    requires stack != []
    ensures forall n :: OnStack(stack, n) ==> OnStack(stack + [f], n)
    ensures OnStack(stack + [f], f.node)
    ensures forall a, b :: Above(stack, a, b) ==> Above(stack + [f], a, b)
    ensures Above(stack + [f], stack[|stack| - 1].node, f.node)
    ensures forall a, b :: Unread(stack, a, b) ==> Unread(stack + [f], a, b)
    ensures forall b | b in f.unread :: Unread(stack + [f], f.node, b)
  {
    var after := stack + [f];
    assert after[|stack|] == f;
    forall n | OnStack(stack, n) ensures OnStack(after, n) {
      var i :| 0 <= i < |stack| && stack[i].node == n;
      assert after[i].node == n;
    }
    forall a, b | Above(stack, a, b) ensures Above(after, a, b) {
      var i :| 0 < i < |stack| && stack[i - 1].node == a && stack[i].node == b;
      assert after[i - 1].node == a && after[i].node == b;
    }
    assert after[|stack| - 1].node == stack[|stack| - 1].node;
    forall a, b | Unread(stack, a, b) ensures Unread(after, a, b) {
      var i :| 0 <= i < |stack| && stack[i].node == a && b in stack[i].unread;
      assert after[i].node == a && b in after[i].unread;
    }
  }

  lemma PushOnStack<T(!new)>(stack: seq<Frame<T>>, f: Frame<T>)
    ensures OnStack(stack + [f], f.node) && forall n :: OnStack(stack, n) ==> OnStack(stack + [f], n)
  {
    var after := stack + [f];
    assert after[|stack|] == f;
    forall n | OnStack(stack, n) ensures OnStack(after, n) {
      var i :| 0 <= i < |stack| && stack[i].node == n;
      assert after[i].node == n;
    }
  }

  lemma DescendStack<T(!new)>(color: map<T, Color>, stack: seq<Frame<T>>, F: set<(T, T)>, f: Frame<T>)
    requires StackIsGray(color, stack, F) && stack != [] && f.node in color && color[f.node] == White
    ensures StackIsGray(color[f.node := Gray], stack + [f], F + {(stack[|stack| - 1].node, f.node)})
  {
    PushOnStack(stack, f);
  }

  lemma DescendKept<T(!new)>(color: map<T, Color>, stack: seq<Frame<T>>, F: set<(T, T)>, rank: map<T, nat>, f: Frame<T>)
    requires KeptOrdered(color, stack, F, rank) && stack != [] && f.node in color && color[f.node] == White
    requires stack[|stack| - 1].node in color && color[stack[|stack| - 1].node] == Gray
    ensures KeptOrdered(color[f.node := Gray], stack + [f], F + {(stack[|stack| - 1].node, f.node)}, rank)
  {
    PushView(stack, f);
  }

  lemma DescendExamined<T(!new)>(adj: map<T, set<T>>, color: map<T, Color>, stack: seq<Frame<T>>,
                                 F: set<(T, T)>, F': set<(T, T)>, v: T)
    requires Examined(adj, color, stack, F) && stack != [] && v in color && color[v] == White && v in adj && F <= F'
    ensures Examined(adj, color[v := Gray], stack + [Frame(v, adj[v])], F')
  {
    PushView(stack, Frame(v, adj[v]));
    KeepsReach(F, F');
  }

  /** Keeping the edge to an unvisited neighbour and descending into it. */
  lemma Descend<T(!new)>(nodes: set<T>, adj: map<T, set<T>>, color: map<T, Color>, stack: seq<Frame<T>>,
                         F: set<(T, T)>, rank: map<T, nat>, v: T)
    requires DfsInv(nodes, adj, color, stack, F, rank) && stack != []
    requires v in stack[|stack| - 1].unread && v in color && color[v] == White
    ensures DfsInv(nodes, adj, color[v := Gray], stack + [Frame(v, adj[v])],
                   F + {(stack[|stack| - 1].node, v)}, rank)
  {
    var f := Frame(v, adj[v]);
    DescendStack(color, stack, F, f);
    DescendKept(color, stack, F, rank, f);
    DescendExamined(adj, color, stack, F, F + {(stack[|stack| - 1].node, v)}, v);
  }

  /** Starting a new tree at an unvisited root. */
  lemma Start<T(!new)>(nodes: set<T>, adj: map<T, set<T>>, color: map<T, Color>, F: set<(T, T)>, rank: map<T, nat>, root: T)
    requires DfsInv(nodes, adj, color, [], F, rank) && root in color && color[root] == White
    ensures DfsInv(nodes, adj, color[root := Gray], [Frame(root, adj[root])], F, rank)
  {
    var stack := [Frame(root, adj[root])];
    assert stack[0] == Frame(root, adj[root]);
    forall b | b in adj[root] ensures Unread(stack, root, b) {
      assert stack[0].node == root && b in stack[0].unread;
    }
    assert OnStack(stack, root);
    assert forall n :: !OnStack<T>([], n);
  }

  lemma PopView<T(!new)>(stack: seq<Frame<T>>)
    requires stack != [] && stack[|stack| - 1].unread == {}
    requires forall i, j | 0 <= i < j < |stack| :: stack[i].node != stack[j].node
    ensures forall n :: OnStack(stack, n) ==> OnStack(stack[..|stack| - 1], n) || n == stack[|stack| - 1].node
    ensures forall a, b :: Above(stack, a, b) ==>
                             a != stack[|stack| - 1].node
                             && (Above(stack[..|stack| - 1], a, b) || b == stack[|stack| - 1].node)
    ensures forall a, b :: Unread(stack, a, b) ==> Unread(stack[..|stack| - 1], a, b)
  {
    var after := stack[..|stack| - 1];
    forall n | OnStack(stack, n) && n != stack[|stack| - 1].node ensures OnStack(after, n) {
      var i :| 0 <= i < |stack| && stack[i].node == n;
      assert after[i].node == n;
    }
    forall a, b | Above(stack, a, b)
      ensures a != stack[|stack| - 1].node && (Above(after, a, b) || b == stack[|stack| - 1].node)
    {
      var i :| 0 < i < |stack| && stack[i - 1].node == a && stack[i].node == b;
      if i < |stack| - 1 {
        assert after[i - 1].node == a && after[i].node == b;
      }
    }
    forall a, b | Unread(stack, a, b) ensures Unread(after, a, b) {
      var i :| 0 <= i < |stack| && stack[i].node == a && b in stack[i].unread;
      assert after[i].node == a && b in after[i].unread;
    }
  }

  lemma FinishStack<T(!new)>(color: map<T, Color>, stack: seq<Frame<T>>, F: set<(T, T)>)
    requires StackIsGray(color, stack, F) && stack != [] && stack[|stack| - 1].unread == {}
    ensures StackIsGray(color[stack[|stack| - 1].node := Black], stack[..|stack| - 1], F)
  {
    PopView(stack);
  }

  lemma FinishKept<T(!new)>(color: map<T, Color>, stack: seq<Frame<T>>, F: set<(T, T)>, rank: map<T, nat>)
    requires StackIsGray(color, stack, F) && KeptOrdered(color, stack, F, rank)
    requires stack != [] && stack[|stack| - 1].unread == {}
    ensures var u := stack[|stack| - 1].node;
            KeptOrdered(color[u := Black], stack[..|stack| - 1], F, rank[u := |rank|])
  {
    var u := stack[|stack| - 1].node;
    var rank' := rank[u := |rank|];
    assert |rank'| == |rank| + 1 by {
      assert rank'.Keys == rank.Keys + {u};
      assert |rank'| == |rank'.Keys|;
    }
    forall e | e in F ensures EdgeOrdered(color[u := Black], stack[..|stack| - 1], rank', e) {
      assert EdgeOrdered(color, stack, rank, e);
      PopView(stack);
    }
  }

  lemma FinishExamined<T(!new)>(adj: map<T, set<T>>, color: map<T, Color>, stack: seq<Frame<T>>, F: set<(T, T)>)
    requires StackIsGray(color, stack, F) && Examined(adj, color, stack, F)
    requires stack != [] && stack[|stack| - 1].unread == {}
    ensures Examined(adj, color[stack[|stack| - 1].node := Black], stack[..|stack| - 1], F)
  {
    PopView(stack);
  }

  /** Finishing the top of the stack once its iterator is exhausted. */
  lemma Finish<T(!new)>(nodes: set<T>, adj: map<T, set<T>>, color: map<T, Color>, stack: seq<Frame<T>>,
                        F: set<(T, T)>, rank: map<T, nat>)
    requires DfsInv(nodes, adj, color, stack, F, rank) && stack != [] && stack[|stack| - 1].unread == {}
    ensures var u := stack[|stack| - 1].node;
            DfsInv(nodes, adj, color[u := Black], stack[..|stack| - 1], F, rank[u := |rank|])
  {
    FinishStack(color, stack, F);
    FinishKept(color, stack, F, rank);
    FinishExamined(adj, color, stack, F);
  }

  // ---------------------------------------------------------------------------
  // The search reads every edge exactly once
  // ---------------------------------------------------------------------------

  /** `looked` lists, once each, the edges that some iterator has yielded. */
  ghost predicate ReadsExact<T(!new)>(adj: map<T, set<T>>, color: map<T, Color>, stack: seq<Frame<T>>, looked: seq<(T, T)>)
  {
    && NoDuplicates(looked)
    && (forall u, v :: (u, v) in looked <==>
          u in color && color[u] != White && u in adj && v in adj[u] && !Unread(stack, u, v))
  }

  lemma ReadOnce<T(!new)>(adj: map<T, set<T>>, color: map<T, Color>, stack: seq<Frame<T>>, F: set<(T, T)>,
                          looked: seq<(T, T)>, k: nat, v: T)
    requires StackIsGray(color, stack, F) && ReadsExact(adj, color, stack, looked)
    requires k < |stack| && v in stack[k].unread && stack[k].node in adj && stack[k].unread <= adj[stack[k].node]
    ensures ReadsExact(adj, color, Read(stack, k, v), looked + [(stack[k].node, v)])
  {
    var u := stack[k].node;
    var after := Read(stack, k, v);
    assert Unread(stack, u, v);
    assert !Unread(after, u, v) by {
      forall i | 0 <= i < |after| && after[i].node == u ensures i == k {
        assert stack[i].node == u;
      }
    }
    forall a, b | Unread(after, a, b) ensures Unread(stack, a, b) {
      var i :| 0 <= i < |after| && after[i].node == a && b in after[i].unread;
      assert stack[i].node == a && b in stack[i].unread;
    }
    ReadView(stack, k, v);
    var looked' := looked + [(u, v)];
    forall a, b
      ensures (a, b) in looked' <==> a in color && color[a] != White && a in adj && b in adj[a] && !Unread(after, a, b)
    {
    }
  }

  lemma PushUnread<T(!new)>(adj: map<T, set<T>>, color: map<T, Color>, stack: seq<Frame<T>>, looked: seq<(T, T)>, n: T)
    requires n in adj && n in color && color[n] == White && ReadsExact(adj, color, stack, looked)
    ensures ReadsExact(adj, color[n := Gray], stack + [Frame(n, adj[n])], looked)
  {
    var after := stack + [Frame(n, adj[n])];
    forall a, b ensures Unread(after, a, b) <==> Unread(stack, a, b) || (a == n && b in adj[n]) {
      if Unread(after, a, b) {
        var i :| 0 <= i < |after| && after[i].node == a && b in after[i].unread;
        assert i < |stack| ==> stack[i].node == a && b in stack[i].unread;
      }
      if Unread(stack, a, b) {
        var i :| 0 <= i < |stack| && stack[i].node == a && b in stack[i].unread;
        assert after[i].node == a && b in after[i].unread;
      }
      if a == n && b in adj[n] {
        assert after[|stack|].node == a && b in after[|stack|].unread;
      }
    }
  }

  lemma PopUnread<T(!new)>(adj: map<T, set<T>>, color: map<T, Color>, stack: seq<Frame<T>>, looked: seq<(T, T)>)
    requires stack != [] && stack[|stack| - 1].unread == {} && ReadsExact(adj, color, stack, looked)
    requires stack[|stack| - 1].node in color && color[stack[|stack| - 1].node] == Gray
    ensures ReadsExact(adj, color[stack[|stack| - 1].node := Black], stack[..|stack| - 1], looked)
  {
    var after := stack[..|stack| - 1];
    forall a, b ensures Unread(after, a, b) <==> Unread(stack, a, b) {
      if Unread(after, a, b) {
        var i :| 0 <= i < |after| && after[i].node == a && b in after[i].unread;
        assert stack[i].node == a && b in stack[i].unread;
      }
      if Unread(stack, a, b) {
        var i :| 0 <= i < |stack| && stack[i].node == a && b in stack[i].unread;
        assert after[i].node == a && b in after[i].unread;
      }
    }
  }

  lemma AddEdge<T(!new)>(forward: map<T, set<T>>, u: T, v: T)
    requires u in forward
    ensures EdgesOf(forward[u := forward[u] + {v}]) == EdgesOf(forward) + {(u, v)}
  {
  }

  // ---------------------------------------------------------------------------
  // Removing the back-edges
  // ---------------------------------------------------------------------------

  /** What the search promises about the kept edges `F` of the graph `E`. */
  ghost predicate MaximalAcyclic<T(!new)>(E: set<(T, T)>, F: set<(T, T)>)
  {
    F <= E && Acyclic(F) && forall e | e in E - F :: Reach(F, e.1, e.0)
  }

  /** Everything the search maintains; `looked` lists the edges read so far. */
  ghost predicate Searching<T(!new)>(nodes: set<T>, adj: map<T, set<T>>, color: map<T, Color>, stack: seq<Frame<T>>,
                                     forward: map<T, set<T>>, rank: map<T, nat>, looked: seq<(T, T)>)
  {
    && forward.Keys == nodes
    && DfsInv(nodes, adj, color, stack, EdgesOf(forward), rank)
    && ReadsExact(adj, color, stack, looked)
  }

  lemma StartTree<T(!new)>(nodes: set<T>, adj: map<T, set<T>>, color: map<T, Color>, forward: map<T, set<T>>,
                           rank: map<T, nat>, looked: seq<(T, T)>, root: T)
    requires Searching(nodes, adj, color, [], forward, rank, looked) && root in color && color[root] == White
    ensures Searching(nodes, adj, color[root := Gray], [Frame(root, adj[root])], forward, rank, looked)
  {
    Start(nodes, adj, color, EdgesOf(forward), rank, root);
    PushUnread(adj, color, [], looked, root);
    assert [] + [Frame(root, adj[root])] == [Frame(root, adj[root])];
  }

  lemma SettleEdge<T(!new)>(nodes: set<T>, adj: map<T, set<T>>, color: map<T, Color>, stack: seq<Frame<T>>,
                            forward: map<T, set<T>>, rank: map<T, nat>, looked: seq<(T, T)>, v: T)
    requires Searching(nodes, adj, color, stack, forward, rank, looked)
    requires stack != [] && v in stack[|stack| - 1].unread && (v !in color || color[v] == Gray)
    ensures Searching(nodes, adj, color, Read(stack, |stack| - 1, v), forward, rank,
                      looked + [(stack[|stack| - 1].node, v)])
  {
    var k := |stack| - 1;
    ReadOnce(adj, color, stack, EdgesOf(forward), looked, k, v);
    if v in color {
      GrayClosesCycle(color, stack, EdgesOf(forward), v);
    }
    ReadKeeps(nodes, adj, color, stack, EdgesOf(forward), rank, k, v);
  }

  lemma SettleFinished<T(!new)>(nodes: set<T>, adj: map<T, set<T>>, color: map<T, Color>, stack: seq<Frame<T>>,
                                forward: map<T, set<T>>, rank: map<T, nat>, looked: seq<(T, T)>, v: T)
    requires Searching(nodes, adj, color, stack, forward, rank, looked)
    requires stack != [] && v in stack[|stack| - 1].unread && v in color && color[v] == Black
    ensures var u := stack[|stack| - 1].node;
            u in forward &&
            Searching(nodes, adj, color, Read(stack, |stack| - 1, v), forward[u := forward[u] + {v}], rank, looked + [(u, v)])
  {
    var k := |stack| - 1;
    var u := stack[k].node;
    ReadOnce(adj, color, stack, EdgesOf(forward), looked, k, v);
    AddEdge(forward, u, v);
    KeepFinished(nodes, adj, color, stack, EdgesOf(forward), rank, v);
    ReadKeeps(nodes, adj, color, stack, EdgesOf(forward) + {(u, v)}, rank, k, v);
  }

  lemma SettleDescent<T(!new)>(nodes: set<T>, adj: map<T, set<T>>, color: map<T, Color>, stack: seq<Frame<T>>,
                               forward: map<T, set<T>>, rank: map<T, nat>, looked: seq<(T, T)>, v: T)
    requires Searching(nodes, adj, color, stack, forward, rank, looked)
    requires stack != [] && v in stack[|stack| - 1].unread && v in color && color[v] == White
    ensures var u := stack[|stack| - 1].node;
            u in forward && v in adj &&
            Searching(nodes, adj, color[v := Gray], Read(stack, |stack| - 1, v) + [Frame(v, adj[v])],
                      forward[u := forward[u] + {v}], rank, looked + [(u, v)])
  {
    var k := |stack| - 1;
    var u := stack[k].node;
    var F := EdgesOf(forward);
    ReadOnce(adj, color, stack, F, looked, k, v);
    PushUnread(adj, color, Read(stack, k, v), looked + [(u, v)], v);
    AddEdge(forward, u, v);
    Descend(nodes, adj, color, stack, F, rank, v);
    ReadKeeps(nodes, adj, color[v := Gray], stack + [Frame(v, adj[v])], F + {(u, v)}, rank, k, v);
    assert Read(stack + [Frame(v, adj[v])], k, v) == Read(stack, k, v) + [Frame(v, adj[v])];
  }

  lemma FinishTop<T(!new)>(nodes: set<T>, adj: map<T, set<T>>, color: map<T, Color>, stack: seq<Frame<T>>,
                           forward: map<T, set<T>>, rank: map<T, nat>, looked: seq<(T, T)>)
    requires Searching(nodes, adj, color, stack, forward, rank, looked)
    requires stack != [] && stack[|stack| - 1].unread == {}
    ensures var u := stack[|stack| - 1].node;
            Searching(nodes, adj, color[u := Black], stack[..|stack| - 1], forward, rank[u := |rank|], looked)
            && Whites(color[u := Black]) == Whites(color)
  {
    Finish(nodes, adj, color, stack, EdgesOf(forward), rank);
    PopUnread(adj, color, stack, looked);
  }

  lemma GrayShrinksWhites<T(!new)>(color: map<T, Color>, v: T)
    requires v in color && color[v] == White
    ensures Whites(color[v := Gray]) < Whites(color)
  {
    assert v in Whites(color) && v !in Whites(color[v := Gray]);
  }

  // What the search does in the order in which it does it.

  ghost predicate StaysBlack<T(!new)>(color0: map<T, Color>, color: map<T, Color>)
  {
    forall n | n in color0 && color0[n] == Black :: n in color && color[n] == Black
  }

  /** `u` is on top of the stack. */
  ghost predicate OnTop<T(!new)>(stack: seq<Frame<T>>, u: T)
  {
    stack != [] && stack[|stack| - 1].node == u
  }

  /** The search has gone on with `u` on top: only neighbours of `u` have been visited, only
      edges out of `u` kept, and none of these leads to a node that was gray. */
  ghost predicate Progress<T(!new)>(E: set<(T, T)>, u: T, color0: map<T, Color>, forward0: map<T, set<T>>,
                                    color: map<T, Color>, forward: map<T, set<T>>)
  {
    && color.Keys == color0.Keys && StaysBlack(color0, color)
    && (forall n | n in color && color[n] != White :: color0[n] != White || (u, n) in E)
    && (forall e | e in EdgesOf(forward) :: e in EdgesOf(forward0) || (e.0 == u && e.1 in color0 && color0[e.1] != Gray))
  }

  /** The first node of the stack stays where it is until the stack is empty. */
  ghost predicate SameBottom<T(!new)>(stack0: seq<Frame<T>>, stack: seq<Frame<T>>)
  {
    stack0 != [] && (stack != [] ==> stack[0].node == stack0[0].node)
  }

  lemma NoProgress<T(!new)>(E: set<(T, T)>, u: T, color: map<T, Color>, forward: map<T, set<T>>)
    ensures Progress(E, u, color, forward, color, forward)
  {
  }

  lemma KeepProgress<T(!new)>(E: set<(T, T)>, u: T, v: T, color: map<T, Color>, forward: map<T, set<T>>)
    requires u in forward && v in color && color[v] != Gray
    ensures Progress(E, u, color, forward, color, forward[u := forward[u] + {v}])
  {
    AddEdge(forward, u, v);
  }

  lemma DescendProgress<T(!new)>(E: set<(T, T)>, u: T, v: T, color: map<T, Color>, forward: map<T, set<T>>)
    requires u in forward && v in color && color[v] == White && (u, v) in E
    ensures Progress(E, u, color, forward, color[v := Gray], forward[u := forward[u] + {v}])
  {
    AddEdge(forward, u, v);
  }

  lemma ProgressOn<T(!new)>(E: set<(T, T)>, u: T, color: map<T, Color>, forward0: map<T, set<T>>, forward1: map<T, set<T>>,
                            color2: map<T, Color>, forward2: map<T, set<T>>)
    requires Progress(E, u, color, forward0, color, forward1) && Progress(E, u, color, forward1, color2, forward2)
    ensures Progress(E, u, color, forward0, color2, forward2)
  {
  }

  lemma FinishProgress<T(!new)>(E: set<(T, T)>, u: T, color0: map<T, Color>, forward0: map<T, set<T>>,
                                color: map<T, Color>, forward: map<T, set<T>>, n: T)
    requires Progress(E, u, color0, forward0, color, forward) && n in color && color[n] == Gray
    ensures Progress(E, u, color0, forward0, color[n := Black], forward)
  {
  }

  /** One round of the inner loop: the top iterator yields a neighbour, and the edge to
      it is skipped (not a node), dropped (gray), kept (black) or followed (white). */
  method ReadNeighbour<T(!new, ==)>(ghost nodes: set<T>, adj: map<T, set<T>>, color0: map<T, Color>,
                                    stack0: seq<Frame<T>>, forward0: map<T, set<T>>,
                                    ghost rank: map<T, nat>, ghost looked0: seq<(T, T)>)
    returns (color: map<T, Color>, stack: seq<Frame<T>>, forward: map<T, set<T>>, descended: bool,
             ghost looked: seq<(T, T)>)
    requires Searching(nodes, adj, color0, stack0, forward0, rank, looked0)
    requires stack0 != [] && stack0[|stack0| - 1].unread != {}
    ensures stack != [] && Searching(nodes, adj, color, stack, forward, rank, looked)
    ensures Visited(color, color0.Keys - Whites(color0))
    ensures descended ==> Whites(color) < Whites(color0)
    ensures !descended ==> color == color0 && Work(stack) < Work(stack0) && OnTop(stack, stack0[|stack0| - 1].node)
    ensures Progress(EdgesWithin(adj, nodes), stack0[|stack0| - 1].node, color0, forward0, color, forward)
    ensures SameBottom(stack0, stack)
  {
    var k := |stack0| - 1;
    var u := stack0[k].node;
    var v :| v in stack0[k].unread;
    color, stack, forward, descended := color0, Read(stack0, k, v), forward0, false;
    looked := looked0 + [(u, v)];
    ReadWork(stack0, v);
    if v !in color || color[v] == Gray {
      SettleEdge(nodes, adj, color0, stack0, forward0, rank, looked0, v);
      NoProgress(EdgesWithin(adj, nodes), u, color0, forward0);
    } else if color[v] == White {
      SettleDescent(nodes, adj, color0, stack0, forward0, rank, looked0, v);
      DescendProgress(EdgesWithin(adj, nodes), u, v, color0, forward0);
      forward := forward[u := forward[u] + {v}];
      color := color[v := Gray];
      stack := stack + [Frame(v, adj[v])];
      descended := true;
      GrayShrinksWhites(color0, v);
    } else {
      SettleFinished(nodes, adj, color0, stack0, forward0, rank, looked0, v);
      KeepProgress(EdgesWithin(adj, nodes), u, v, color0, forward0);
      forward := forward[u := forward[u] + {v}];
    }
  }

  /** The inner loop: reads the iterator on top until it descends or runs out. */
  method ScanTop<T(!new, ==)>(ghost nodes: set<T>, adj: map<T, set<T>>, color0: map<T, Color>, stack0: seq<Frame<T>>,
                              forward0: map<T, set<T>>, ghost rank: map<T, nat>, ghost looked0: seq<(T, T)>)
    returns (color: map<T, Color>, stack: seq<Frame<T>>, forward: map<T, set<T>>, descended: bool,
             ghost looked: seq<(T, T)>)
    requires Searching(nodes, adj, color0, stack0, forward0, rank, looked0) && stack0 != []
    ensures stack != [] && Searching(nodes, adj, color, stack, forward, rank, looked)
    ensures Visited(color, color0.Keys - Whites(color0))
    ensures descended ==> Whites(color) < Whites(color0)
    ensures !descended ==> color == color0 && Work(stack) <= Work(stack0) && stack[|stack| - 1].unread == {}
    ensures Progress(EdgesWithin(adj, nodes), stack0[|stack0| - 1].node, color0, forward0, color, forward)
    ensures SameBottom(stack0, stack)
  {
    color, stack, forward, descended, looked := color0, stack0, forward0, false, looked0;
    ghost var u := stack0[|stack0| - 1].node;
    NoProgress(EdgesWithin(adj, nodes), u, color0, forward0);
    while stack[|stack| - 1].unread != {} && !descended
      invariant stack != [] && Searching(nodes, adj, color, stack, forward, rank, looked)
      invariant Visited(color, color0.Keys - Whites(color0))
      invariant descended ==> Whites(color) < Whites(color0)
      invariant !descended ==> color == color0 && Work(stack) <= Work(stack0) && OnTop(stack, u)
      invariant Progress(EdgesWithin(adj, nodes), u, color0, forward0, color, forward) && SameBottom(stack0, stack)
      decreases !descended, Work(stack)
    {
      ghost var before := forward;
      color, stack, forward, descended, looked := ReadNeighbour(nodes, adj, color, stack, forward, rank, looked);
      ProgressOn(EdgesWithin(adj, nodes), u, color0, forward0, before, color, forward);
    }
  }

  /** One round of the outer loop: the top node descends or is finished and popped. */
  method SearchRound<T(!new, ==)>(ghost nodes: set<T>, adj: map<T, set<T>>, color0: map<T, Color>, stack0: seq<Frame<T>>,
                                  forward0: map<T, set<T>>, ghost rank0: map<T, nat>, ghost looked0: seq<(T, T)>)
    returns (color: map<T, Color>, stack: seq<Frame<T>>, forward: map<T, set<T>>, ghost rank: map<T, nat>,
             ghost looked: seq<(T, T)>)
    requires Searching(nodes, adj, color0, stack0, forward0, rank0, looked0) && stack0 != []
    ensures Searching(nodes, adj, color, stack, forward, rank, looked)
    ensures Visited(color, color0.Keys - Whites(color0))
    ensures Whites(color) < Whites(color0) || (Whites(color) == Whites(color0) && Work(stack) < Work(stack0))
    ensures Progress(EdgesWithin(adj, nodes), stack0[|stack0| - 1].node, color0, forward0, color, forward)
    ensures SameBottom(stack0, stack)
  {
    var descended;
    color, stack, forward, descended, looked := ScanTop(nodes, adj, color0, stack0, forward0, rank0, looked0);
    rank := rank0;
    if !descended {
      FinishTop(nodes, adj, color, stack, forward, rank, looked);
      var u := stack[|stack| - 1].node;
      FinishProgress(EdgesWithin(adj, nodes), stack0[|stack0| - 1].node, color0, forward0, color, forward, u);
      color := color[u := Black];
      rank := rank[u := |rank|];
      stack := stack[..|stack| - 1];
    }
  }

  lemma StillVisited<T(!new)>(S: set<T>, color: map<T, Color>, color': map<T, Color>)
    requires Visited(color, S) && Visited(color', color.Keys - Whites(color))
    ensures Visited(color', S)
  {
  }

  ghost predicate NoGray<T(!new)>(color: map<T, Color>)
  {
    forall n | n in color :: color[n] != Gray
  }

  /** While the tree of `root` grows: whatever it visits is reached from the root, edges are
      kept only out of what it visits, and none is kept that leads back into the root. */
  ghost predicate Growing<T(!new)>(E: set<(T, T)>, root: T, color0: map<T, Color>, forward0: map<T, set<T>>,
                                   color: map<T, Color>, stack: seq<Frame<T>>, forward: map<T, set<T>>)
  {
    && color.Keys == color0.Keys && StaysBlack(color0, color) && NoGray(color0)
    && (stack != [] ==> stack[0].node == root)
    && (forall n | n in color && color[n] != White :: color0[n] != White || Reach(E, root, n))
    && (forall e | e in EdgesOf(forward) :: e in EdgesOf(forward0) || (e.0 in color0 && color0[e.0] == White))
    && (forall e | e in EdgesOf(forward) :: e.1 != root)
  }

  lemma GrowingStarts<T(!new)>(nodes: set<T>, adj: map<T, set<T>>, root: T, color0: map<T, Color>, forward: map<T, set<T>>,
                               rank: map<T, nat>, looked: seq<(T, T)>)
    requires Searching(nodes, adj, color0, [], forward, rank, looked) && root in color0 && color0[root] == White
    ensures Growing(EdgesWithin(adj, nodes), root, color0, forward, color0[root := Gray], [Frame(root, adj[root])], forward)
  {
    assert forall n :: !OnStack<T>([], n);
    ReachReflexive(EdgesWithin(adj, nodes), root);
    forall e | e in EdgesOf(forward) ensures e.1 != root {
      assert EdgeOrdered(color0, [], rank, e);
    }
  }

  lemma GrowingStep<T(!new)>(E: set<(T, T)>, root: T, color0: map<T, Color>, forward0: map<T, set<T>>,
                             color1: map<T, Color>, stack1: seq<Frame<T>>, forward1: map<T, set<T>>,
                             color: map<T, Color>, stack: seq<Frame<T>>, forward: map<T, set<T>>)
    requires Growing(E, root, color0, forward0, color1, stack1, forward1) && stack1 != []
    requires StackIsGray(color1, stack1, EdgesOf(forward1))
    requires Progress(E, stack1[|stack1| - 1].node, color1, forward1, color, forward) && SameBottom(stack1, stack)
    ensures Growing(E, root, color0, forward0, color, stack, forward)
  {
    var u := stack1[|stack1| - 1].node;
    assert color1[u] == Gray && color0[u] == White;
    forall n | n in color && color[n] != White ensures color0[n] != White || Reach(E, root, n) {
      if color1[n] == White {
        EdgeReach(E, u, n);
        ReachTransitive(E, root, u, n);
      }
    }
  }

  /** One tree of the search, from an unvisited root to an empty stack. */
  method SearchTree<T(!new, ==)>(ghost nodes: set<T>, adj: map<T, set<T>>, root: T,
                                 color0: map<T, Color>, forward0: map<T, set<T>>,
                                 ghost rank0: map<T, nat>, ghost looked0: seq<(T, T)>)
    returns (color: map<T, Color>, forward: map<T, set<T>>, ghost rank: map<T, nat>, ghost looked: seq<(T, T)>)
    requires Searching(nodes, adj, color0, [], forward0, rank0, looked0)
    requires root in color0 && color0[root] == White
    ensures Searching(nodes, adj, color, [], forward, rank, looked)
    ensures Visited(color, color0.Keys - Whites(color0) + {root})
    ensures Growing(EdgesWithin(adj, nodes), root, color0, forward0, color, [], forward)
  {
    color, forward, rank, looked := color0[root := Gray], forward0, rank0, looked0;
    var stack := [Frame(root, adj[root])];
    StartTree(nodes, adj, color0, forward, rank, looked, root);
    GrowingStarts(nodes, adj, root, color0, forward, rank, looked);
    while stack != []
      invariant Searching(nodes, adj, color, stack, forward, rank, looked)
      invariant Visited(color, color0.Keys - Whites(color0) + {root})
      invariant Growing(EdgesWithin(adj, nodes), root, color0, forward0, color, stack, forward)
      decreases Whites(color), Work(stack)
    {
      ghost var before, frames, kept := color, stack, forward;
      color, stack, forward, rank, looked := SearchRound(nodes, adj, color, stack, forward, rank, looked);
      StillVisited(color0.Keys - Whites(color0) + {root}, before, color);
      GrowingStep(EdgesWithin(adj, nodes), root, color0, forward0, before, frames, kept, color, stack, forward);
    }
  }

  /** A visited root is passed over; from another one a tree has grown. */
  ghost predicate SearchedFrom<T(!new)>(E: set<(T, T)>, root: T, color0: map<T, Color>, forward0: map<T, set<T>>,
                                        color: map<T, Color>, forward: map<T, set<T>>)
    requires root in color0
  {
    if color0[root] != White then color == color0 && forward == forward0
    else Growing(E, root, color0, forward0, color, [], forward)
  }

  /** Searches from `root` unless an earlier tree has reached it. */
  method SearchFrom<T(!new, ==)>(ghost nodes: set<T>, adj: map<T, set<T>>, root: T, ghost seen: set<T>,
                                 color0: map<T, Color>, forward0: map<T, set<T>>,
                                 ghost rank0: map<T, nat>, ghost looked0: seq<(T, T)>)
    returns (color: map<T, Color>, forward: map<T, set<T>>, ghost rank: map<T, nat>, ghost looked: seq<(T, T)>)
    requires Searching(nodes, adj, color0, [], forward0, rank0, looked0) && Visited(color0, seen)
    requires root in color0
    ensures Searching(nodes, adj, color, [], forward, rank, looked)
    ensures Visited(color, seen + {root})
    ensures SearchedFrom(EdgesWithin(adj, nodes), root, color0, forward0, color, forward)
  {
    color, forward, rank, looked := color0, forward0, rank0, looked0;
    if color[root] != White {
      return;
    }
    color, forward, rank, looked := SearchTree(nodes, adj, root, color, forward, rank, looked);
  }

  /** A finished search: every edge between nodes is kept or closes a cycle of kept edges. */
  lemma SearchIsMaximal<T(!new)>(nodes: set<T>, adj: map<T, set<T>>, color: map<T, Color>, forward: map<T, set<T>>,
                                 rank: map<T, nat>, looked: seq<(T, T)>)
    requires Searching(nodes, adj, color, [], forward, rank, looked)
    requires forall n | n in nodes :: color[n] != White
    ensures MaximalAcyclic(EdgesWithin(adj, nodes), EdgesOf(forward))
    ensures rank.Keys == nodes && forall e | e in EdgesOf(forward) :: e.1 in nodes && rank[e.1] < rank[e.0]
  {
    var F := EdgesOf(forward);
    forall n | n in nodes ensures color[n] == Black {
      assert !OnStack<T>([], n);
    }
    forall e | e in F ensures e.0 in nodes && e.1 in nodes && rank[e.1] < rank[e.0] {
      assert EdgeOrdered(color, [], rank, e);
    }
    RankedIsAcyclic(F, rank);
    forall e | e in EdgesWithin(adj, nodes) - F ensures Reach(F, e.1, e.0) {
      assert !Unread<T>([], e.0, e.1);
    }
  }

  lemma AllLooked<T(!new)>(adj: map<T, set<T>>, color: map<T, Color>, looked: seq<(T, T)>)
    requires ReadsExact(adj, color, [], looked) && color.Keys <= adj.Keys
    requires forall n | n in color :: color[n] != White
    ensures forall u, v :: (u, v) in looked <==> u in color && v in adj[u]
  {
    forall u, v ensures (u, v) in looked <==> u in color && v in adj[u] {
      assert !Unread<T>([], u, v);
    }
  }

  lemma SearchStarts<T(!new)>(nodes: set<T>, adj: map<T, set<T>>, color: map<T, Color>, forward: map<T, set<T>>)
    requires color.Keys == nodes && forward.Keys == nodes && nodes <= adj.Keys
    requires forall n | n in nodes :: color[n] == White && forward[n] == {}
    ensures Searching(nodes, adj, color, [], forward, map[], [])
  {
    assert EdgesOf(forward) == {};
    assert forall n :: !OnStack<T>([], n);
  }

  ghost predicate Visited<T(!new)>(color: map<T, Color>, S: set<T>)
  {
    forall n | n in S :: n in color && color[n] != White
  }

  // The order of the roots.

  /** No root listed before number `k` reaches it. */
  ghost predicate Foremost<T(!new)>(E: set<(T, T)>, roots: seq<T>, k: nat)
    requires k < |roots|
  {
    forall j | 0 <= j < k :: !Reach(E, roots[j], roots[k])
  }

  /** Root number `k` lies above whatever it reaches: no kept edge leads back into it. */
  ghost predicate Topmost<T(!new)>(E: set<(T, T)>, F: set<(T, T)>, root: T)
  {
    forall u | (u, root) in F :: !Reach(E, root, u)
  }

  /** After the first `i` roots: what is visited is reached from one of them, and the
      foremost of them are done with and topmost. */
  ghost predicate RootsDone<T(!new)>(E: set<(T, T)>, roots: seq<T>, i: nat, color: map<T, Color>, F: set<(T, T)>)
    requires i <= |roots|
  {
    && (forall n | n in color && color[n] != White :: FromRoots(E, roots, i, n))
    && (forall k | 0 <= k < i && Foremost(E, roots, k) :: Topmost(E, F, roots[k]))
  }

  /** Between two trees everything a visited node reaches is finished. */
  lemma FinishedIsClosed<T(!new)>(nodes: set<T>, adj: map<T, set<T>>, color: map<T, Color>, forward: map<T, set<T>>,
                                  rank: map<T, nat>, looked: seq<(T, T)>, u: T, v: T)
    requires Searching(nodes, adj, color, [], forward, rank, looked)
    requires u in color && color[u] != White && (u, v) in EdgesWithin(adj, nodes)
    ensures color[v] == Black
  {
    var F := EdgesOf(forward);
    assert !Unread<T>([], u, v) && forall n :: !OnStack<T>([], n);
    if (u, v) in F {
      assert EdgeOrdered(color, [], rank, (u, v));
    } else {
      var n: nat :| Steps(F, v, u, n);
      if n > 0 {
        var m := StepsFirst(F, v, u, n);
        assert EdgeOrdered(color, [], rank, (v, m));
      }
    }
  }

  lemma ReachedIsFinished<T(!new)>(nodes: set<T>, adj: map<T, set<T>>, color: map<T, Color>, forward: map<T, set<T>>,
                                   rank: map<T, nat>, looked: seq<(T, T)>, u: T, v: T)
    requires Searching(nodes, adj, color, [], forward, rank, looked)
    requires u in color && color[u] != White && Reach(EdgesWithin(adj, nodes), u, v)
    ensures v in color && color[v] == Black
  {
    assert forall n :: !OnStack<T>([], n);
    var E := EdgesWithin(adj, nodes);
    var S := set n | n in color && color[n] == Black;
    forall e | e in E && e.0 in S ensures e.1 in S {
      FinishedIsClosed(nodes, adj, color, forward, rank, looked, e.0, e.1);
    }
    var n: nat :| Steps(E, u, v, n);
    ClosedHoldsReach(E, S, u, v, n);
  }

  /** A topmost root stays so: whatever it reaches is finished and keeps no more edges. */
  lemma StaysTopmost<T(!new)>(nodes: set<T>, adj: map<T, set<T>>, root: T, color0: map<T, Color>, forward0: map<T, set<T>>,
                              rank0: map<T, nat>, looked0: seq<(T, T)>, next: T, color: map<T, Color>, forward: map<T, set<T>>)
    requires Searching(nodes, adj, color0, [], forward0, rank0, looked0)
    requires Growing(EdgesWithin(adj, nodes), next, color0, forward0, color, [], forward)
    requires root in color0 && color0[root] != White && Topmost(EdgesWithin(adj, nodes), EdgesOf(forward0), root)
    ensures Topmost(EdgesWithin(adj, nodes), EdgesOf(forward), root)
  {
    forall u | (u, root) in EdgesOf(forward) ensures !Reach(EdgesWithin(adj, nodes), root, u) {
      if Reach(EdgesWithin(adj, nodes), root, u) {
        ReachedIsFinished(nodes, adj, color0, forward0, rank0, looked0, root, u);
      }
    }
  }

  /** A root that no root listed before it reaches has no kept edge from a node it reaches. */
  ghost predicate RootsTopmost<T(!new)>(E: set<(T, T)>, F: set<(T, T)>, roots: seq<T>)
  {
    forall k | 0 <= k < |roots| && Foremost(E, roots, k) :: Topmost(E, F, roots[k])
  }

  ghost predicate FromRoots<T(!new)>(E: set<(T, T)>, roots: seq<T>, i: nat, n: T)
    requires i <= |roots|
  {
    exists j :: 0 <= j < i && Reach(E, roots[j], n)
  }

  lemma FromRootsGrows<T(!new)>(E: set<(T, T)>, roots: seq<T>, i: nat, n: T)
    requires i < |roots| && (FromRoots(E, roots, i, n) || Reach(E, roots[i], n))
    ensures FromRoots(E, roots, i + 1, n)
  {
  }

  /** Root number `k` has been topmost since its own turn. */
  lemma TopmostStep<T(!new)>(nodes: set<T>, adj: map<T, set<T>>, roots: seq<T>, i: nat, k: nat, color0: map<T, Color>,
                             forward0: map<T, set<T>>, rank0: map<T, nat>, looked0: seq<(T, T)>, color: map<T, Color>,
                             forward: map<T, set<T>>)
    requires k < i < |roots| && roots[i] in color0 && Searching(nodes, adj, color0, [], forward0, rank0, looked0)
    requires Topmost(EdgesWithin(adj, nodes), EdgesOf(forward0), roots[k]) && Visited(color0, Prefix(roots, i))
    requires SearchedFrom(EdgesWithin(adj, nodes), roots[i], color0, forward0, color, forward)
    ensures Topmost(EdgesWithin(adj, nodes), EdgesOf(forward), roots[k])
  {
    assert roots[k] in Prefix(roots, i);
    if color0[roots[i]] == White {
      StaysTopmost(nodes, adj, roots[k], color0, forward0, rank0, looked0, roots[i], color, forward);
    }
  }

  /** A foremost root is unvisited at its turn, and its tree keeps no edge into it. */
  lemma TopmostNow<T(!new)>(E: set<(T, T)>, roots: seq<T>, i: nat, color0: map<T, Color>, forward0: map<T, set<T>>,
                            color: map<T, Color>, forward: map<T, set<T>>)
    requires i < |roots| && roots[i] in color0 && Foremost(E, roots, i)
    requires color0[roots[i]] != White ==> FromRoots(E, roots, i, roots[i])
    requires SearchedFrom(E, roots[i], color0, forward0, color, forward)
    ensures Topmost(E, EdgesOf(forward), roots[i])
  {
  }

  lemma VisitedFromRoots<T(!new)>(E: set<(T, T)>, roots: seq<T>, i: nat, color0: map<T, Color>, forward0: map<T, set<T>>,
                                  color: map<T, Color>, forward: map<T, set<T>>, n: T)
    requires i < |roots| && roots[i] in color0 && SearchedFrom(E, roots[i], color0, forward0, color, forward)
    requires forall m | m in color0 && color0[m] != White :: FromRoots(E, roots, i, m)
    requires n in color && color[n] != White
    ensures FromRoots(E, roots, i + 1, n)
  {
    FromRootsGrows(E, roots, i, n);
  }

  /** One more root has been searched from. */
  lemma RootsStep<T(!new)>(nodes: set<T>, adj: map<T, set<T>>, roots: seq<T>, i: nat, color0: map<T, Color>,
                           forward0: map<T, set<T>>, rank0: map<T, nat>, looked0: seq<(T, T)>, color: map<T, Color>,
                           forward: map<T, set<T>>)
    requires i < |roots| && roots[i] in color0 && Searching(nodes, adj, color0, [], forward0, rank0, looked0)
    requires RootsDone(EdgesWithin(adj, nodes), roots, i, color0, EdgesOf(forward0)) && Visited(color0, Prefix(roots, i))
    requires SearchedFrom(EdgesWithin(adj, nodes), roots[i], color0, forward0, color, forward)
    ensures RootsDone(EdgesWithin(adj, nodes), roots, i + 1, color, EdgesOf(forward))
  {
    var E := EdgesWithin(adj, nodes);
    forall n | n in color && color[n] != White ensures FromRoots(E, roots, i + 1, n) {
      VisitedFromRoots(E, roots, i, color0, forward0, color, forward, n);
    }
    forall k | 0 <= k < i + 1 && Foremost(E, roots, k) ensures Topmost(E, EdgesOf(forward), roots[k]) {
      if k < i {
        TopmostStep(nodes, adj, roots, i, k, color0, forward0, rank0, looked0, color, forward);
      } else {
        TopmostNow(E, roots, i, color0, forward0, color, forward);
      }
    }
  }

  /** Searches from every root that no earlier tree has reached. */
  method SearchAll<T(!new, ==)>(connected: seq<T>, adj: map<T, set<T>>)
    returns (ghost color: map<T, Color>, forward: map<T, set<T>>, ghost rank: map<T, nat>, ghost looked: seq<(T, T)>)
    requires forall n | n in connected :: n in adj
    ensures Searching(Prefix(connected, |connected|), adj, color, [], forward, rank, looked)
    ensures Visited(color, Prefix(connected, |connected|))
    ensures RootsDone(EdgesWithin(adj, Prefix(connected, |connected|)), connected, |connected|, color, EdgesOf(forward))
  {
    ghost var nodes := Prefix(connected, |connected|);
    var colors := map n | n in connected :: White;
    forward := map n | n in connected :: {};
    rank, looked := map[], [];
    SearchStarts(nodes, adj, colors, forward);
    for i := 0 to |connected|
      invariant Searching(nodes, adj, colors, [], forward, rank, looked)
      invariant Visited(colors, Prefix(connected, i))
      invariant RootsDone(EdgesWithin(adj, nodes), connected, i, colors, EdgesOf(forward))
    {
      PrefixStep(connected, i);
      ghost var before, kept, rank0, looked0 := colors, forward, rank, looked;
      colors, forward, rank, looked :=
        SearchFrom(nodes, adj, connected[i], Prefix(connected, i), colors, forward, rank, looked);
      RootsStep(nodes, adj, connected, i, before, kept, rank0, looked0, colors, forward);
    }
    color := colors;
  }

  /** Strips the back-edges of `adj` among `connected` by depth-first search. The ghost
      results are the finishing numbers and the list of edges in the order they were read. */
  method DropBackEdges<T(!new, ==)>(connected: seq<T>, adj: map<T, set<T>>)
    returns (forward: map<T, set<T>>, ghost rank: map<T, nat>, ghost looked: seq<(T, T)>)
    requires forall n | n in connected :: n in adj
    ensures forward.Keys == (set n | n in connected)
    ensures MaximalAcyclic(EdgesWithin(adj, forward.Keys), EdgesOf(forward))
    ensures rank.Keys == forward.Keys && forall e | e in EdgesOf(forward) :: e.1 in forward && rank[e.1] < rank[e.0]
    ensures NoDuplicates(looked) && forall u, v :: (u, v) in looked <==> u in forward && v in adj[u]
    ensures RootsTopmost(EdgesWithin(adj, forward.Keys), EdgesOf(forward), connected)
  {
    ghost var color;
    color, forward, rank, looked := SearchAll(connected, adj);
    PrefixAll(connected);
    SearchIsMaximal(forward.Keys, adj, color, forward, rank, looked);
    AllLooked(adj, color, looked);
  }

  /** Nothing is dropped exactly when the graph was acyclic to begin with. */
  lemma NothingDropped<T(!new)>(E: set<(T, T)>, F: set<(T, T)>)
    requires MaximalAcyclic(E, F)
    ensures F == E <==> Acyclic(E)
  {
    if F != E {
      var e :| e in E && e !in F;
      DroppedClosesCycle(E, F, e);
      var s, n: nat :| Steps(F + {e}, s, s, n) && n != 0;
      StepsMonotone(F + {e}, E, s, s, n);
    }
  }

  /** A dropped edge cannot be put back: with it the kept edges have a cycle. */
  lemma DroppedClosesCycle<T(!new)>(E: set<(T, T)>, F: set<(T, T)>, e: (T, T))
    requires MaximalAcyclic(E, F) && e in E - F
    ensures !Acyclic(F + {e})
  {
    var n: nat :| Steps(F, e.1, e.0, n);
    StepsMonotone(F, F + {e}, e.1, e.0, n);
    assert Steps(F + {e}, e.1, e.1, n + 1);
  }

  // ---------------------------------------------------------------------------
  // Longest-path layering
  // ---------------------------------------------------------------------------

  /** `n` is the length of the longest walk that ends at `v`. */
  ghost predicate LongestTo<T(!new)>(F: set<(T, T)>, v: T, n: nat)
  {
    (exists s :: Steps(F, s, v, n)) && forall s, m: nat :: Steps(F, s, v, m) ==> m <= n
  }

  /** Every edge climbs, and every layer above 0 is justified by an edge from just below. */
  ghost predicate Layered<T(!new)>(F: set<(T, T)>, layer: map<T, nat>)
  {
    && (forall e | e in F :: e.0 in layer && e.1 in layer && layer[e.0] < layer[e.1])
    && (forall v | v in layer && layer[v] > 0 :: exists p :: (p, v) in F && layer[v] == layer[p] + 1)
  }

  lemma {:induction false} WalksClimb<T(!new)>(F: set<(T, T)>, layer: map<T, nat>, s: T, v: T, n: nat)
    requires Layered(F, layer) && v in layer && Steps(F, s, v, n)
    ensures n <= layer[v]
  {
    if n > 0 {
      var m :| Steps(F, s, m, n - 1) && (m, v) in F;
      WalksClimb(F, layer, s, m, n - 1);
    }
  }

  lemma {:induction false} WalkDown<T(!new)>(F: set<(T, T)>, layer: map<T, nat>, v: T) returns (s: T)
    requires Layered(F, layer) && v in layer
    ensures Steps(F, s, v, layer[v])
    decreases layer[v]
  {
    if layer[v] == 0 {
      s := v;
    } else {
      var p :| (p, v) in F && layer[v] == layer[p] + 1;
      s := WalkDown(F, layer, p);
    }
  }

  lemma LayeredIsLongest<T(!new)>(F: set<(T, T)>, layer: map<T, nat>, v: T)
    requires Layered(F, layer) && v in layer
    ensures LongestTo(F, v, layer[v])
  {
    var s := WalkDown(F, layer, v);
    forall a, m: nat | Steps(F, a, v, m) ensures m <= layer[v] {
      WalksClimb(F, layer, a, v, m);
    }
  }

  /** No layer below an occupied one is empty. */
  lemma {:induction false} NoGaps<T(!new)>(F: set<(T, T)>, layer: map<T, nat>, v: T, k: nat) returns (w: T)
    requires Layered(F, layer) && v in layer && k <= layer[v]
    ensures w in layer && layer[w] == k
    decreases layer[v]
  {
    if k == layer[v] {
      w := v;
    } else {
      var p :| (p, v) in F && layer[v] == layer[p] + 1;
      w := NoGaps(F, layer, p, k);
    }
  }

  /** The predecessors of `v` inside `R`. */
  function PredsIn<T(==)>(forward: map<T, set<T>>, R: set<T>, v: T): set<T>
  {
    set u | u in R && u in forward && v in forward[u]
  }

  lemma PredsDrop<T(!new)>(forward: map<T, set<T>>, R: set<T>, u: T, v: T)
    requires u in R && u in forward
    ensures |PredsIn(forward, R, v)| == |PredsIn(forward, R - {u}, v)| + (if v in forward[u] then 1 else 0)
  {
    if v in forward[u] {
      assert PredsIn(forward, R, v) == PredsIn(forward, R - {u}, v) + {u};
    } else {
      assert PredsIn(forward, R, v) == PredsIn(forward, R - {u}, v);
    }
  }

  /** `indeg` counts the edges out of `S`, and those into `extra` once more. */
  ghost predicate CountsInto<T(!new)>(forward: map<T, set<T>>, S: set<T>, extra: set<T>, indeg: map<T, nat>)
  {
    && indeg.Keys == forward.Keys
    && forall v | v in indeg :: indeg[v] == |PredsIn(forward, S, v)| + (if v in extra then 1 else 0)
  }

  /** `for v in forward[u]: indeg[v] += 1`. */
  method CountTargets<T(!new, ==)>(forward: map<T, set<T>>, ghost S: set<T>, u: T, indeg0: map<T, nat>)
    returns (indeg: map<T, nat>)
    requires u in forward && u !in S && forward[u] <= forward.Keys && CountsInto(forward, S, {}, indeg0)
    ensures CountsInto(forward, S + {u}, {}, indeg)
  {
    indeg := indeg0;
    var left := forward[u];
    while left != {}
      invariant left <= forward[u] && CountsInto(forward, S, forward[u] - left, indeg)
    {
      var v :| v in left;
      left := left - {v};
      indeg := indeg[v := indeg[v] + 1];
    }
    assert forward[u] - {} == forward[u] && S + {u} - {u} == S;
    forall v | v in indeg ensures indeg[v] == |PredsIn(forward, S + {u}, v)| {
      PredsDrop(forward, S + {u}, u, v);
    }
  }

  /** In-degrees, counted one edge at a time. */
  method CountInDegrees<T(!new, ==)>(connected: seq<T>, forward: map<T, set<T>>) returns (indeg: map<T, nat>)
    requires NoDuplicates(connected) && forward.Keys == (set n | n in connected)
    requires forall u | u in forward :: forward[u] <= forward.Keys
    ensures CountsInto(forward, forward.Keys, {}, indeg)
  {
    indeg := map n | n in connected :: 0;
    for i := 0 to |connected|
      invariant CountsInto(forward, Prefix(connected, i), {}, indeg)
    {
      PrefixStep(connected, i);
      indeg := CountTargets(forward, Prefix(connected, i), connected[i], indeg);
    }
    PrefixAll(connected);
  }

  // --- the invariant of Kahn's loop; `R` are the nodes not dequeued yet -------

  /** In-degrees count the predecessors that are still waiting; the predecessors of
      a dequeued node have all been dequeued. */
  ghost predicate Counted<T(!new)>(forward: map<T, set<T>>, R: set<T>, indeg: map<T, nat>)
  {
    && indeg.Keys == forward.Keys && R <= forward.Keys
    && (forall u | u in forward :: forward[u] <= forward.Keys)
    && (forall v | v in indeg :: indeg[v] == |PredsIn(forward, R, v)|)
    && (forall v | v in forward && v !in R :: indeg[v] == 0)
  }

  /** The queue holds, once each, the waiting nodes of in-degree 0. */
  ghost predicate Queued<T(!new)>(R: set<T>, indeg: map<T, nat>, q: seq<T>)
  {
    && NoDuplicates(q)
    && (forall v :: v in q <==> v in R && v in indeg && indeg[v] == 0)
  }

  /** The layers are right for the edges out of dequeued nodes. */
  ghost predicate LayeredSoFar<T(!new)>(forward: map<T, set<T>>, R: set<T>, layer: map<T, nat>)
  {
    && layer.Keys == forward.Keys
    && (forall u, v | u in forward && u !in R && v in forward[u] :: v in layer && layer[u] < layer[v])
    && (forall v {:trigger Justified(forward, R, layer, v)} | v in layer && layer[v] > 0 :: Justified(forward, R, layer, v))
  }

  ghost predicate Justified<T(!new)>(forward: map<T, set<T>>, R: set<T>, layer: map<T, nat>, v: T)
  {
    exists p :: p in forward && p !in R && p in layer && v in forward[p] && v in layer && layer[v] == layer[p] + 1
  }

  /** Handling the edges of `u`, which has just left the queue: the targets in `left` remain. */
  ghost predicate Relaxing<T(!new)>(forward: map<T, set<T>>, R: set<T>, u: T, left: set<T>,
                                    indeg: map<T, nat>, layer: map<T, nat>, q: seq<T>)
  {
    && u in forward && u !in R && left <= forward[u] <= R <= forward.Keys
    && (forall n | n in forward :: forward[n] <= forward.Keys)
    && CountedExcept(forward, R, left, indeg)
    && Queued(R, indeg, q)
    && LayeredExcept(forward, R, u, left, layer)
  }

  ghost predicate CountedExcept<T(!new)>(forward: map<T, set<T>>, R: set<T>, left: set<T>, indeg: map<T, nat>)
  {
    && indeg.Keys == forward.Keys
    && (forall v | v in indeg :: indeg[v] == |PredsIn(forward, R, v)| + (if v in left then 1 else 0))
    && (forall v | v in forward && v !in R :: indeg[v] == 0)
  }

  ghost predicate LayeredExcept<T(!new)>(forward: map<T, set<T>>, R: set<T>, u: T, left: set<T>, layer: map<T, nat>)
  {
    && layer.Keys == forward.Keys && ClimbsExcept(forward, R, u, left, layer)
    && (forall v {:trigger Justified(forward, R, layer, v)} | v in layer && layer[v] > 0 :: Justified(forward, R, layer, v))
  }

  ghost predicate ClimbsExcept<T(!new)>(forward: map<T, set<T>>, R: set<T>, u: T, left: set<T>, layer: map<T, nat>)
  {
    forall n, v | n in forward && n !in R && v in forward[n] && !(n == u && v in left) ::
      n in layer && v in layer && layer[n] < layer[v]
  }

  lemma DequeueCount<T(!new)>(forward: map<T, set<T>>, R: set<T>, indeg: map<T, nat>, u: T)
    requires Counted(forward, R, indeg) && u in R && indeg[u] == 0
    ensures forward[u] <= R - {u} && CountedExcept(forward, R - {u}, forward[u], indeg)
  {
    forall v ensures |PredsIn(forward, R, v)| == |PredsIn(forward, R - {u}, v)| + (if v in forward[u] then 1 else 0) {
      PredsDrop(forward, R, u, v);
    }
  }

  lemma DequeueQueue<T(!new)>(R: set<T>, indeg: map<T, nat>, q: seq<T>)
    requires Queued(R, indeg, q) && q != []
    ensures q[0] in R && q[0] in indeg && indeg[q[0]] == 0 && Queued(R - {q[0]}, indeg, q[1..])
  {
    assert q[0] in q;
    assert q == [q[0]] + q[1..];
  }

  lemma DequeueLayer<T(!new)>(forward: map<T, set<T>>, R: set<T>, layer: map<T, nat>, u: T)
    requires LayeredSoFar(forward, R, layer) && u in R && u in forward
    ensures LayeredExcept(forward, R - {u}, u, forward[u], layer)
  {
    forall v | v in layer && layer[v] > 0 ensures Justified(forward, R - {u}, layer, v) {
      assert Justified(forward, R, layer, v);
    }
  }

  /** Taking the front of the queue. */
  lemma Dequeue<T(!new)>(forward: map<T, set<T>>, R: set<T>, indeg: map<T, nat>, layer: map<T, nat>, q: seq<T>)
    requires Counted(forward, R, indeg) && Queued(R, indeg, q) && LayeredSoFar(forward, R, layer) && q != []
    ensures q[0] in forward && Relaxing(forward, R - {q[0]}, q[0], forward[q[0]], indeg, layer, q[1..])
  {
    DequeueQueue(R, indeg, q);
    DequeueCount(forward, R, indeg, q[0]);
    DequeueLayer(forward, R, layer, q[0]);
  }

  function Raised<T>(layer: map<T, nat>, u: T, v: T): map<T, nat>
    requires u in layer && v in layer
  {
    if layer[u] + 1 > layer[v] then layer[v := layer[u] + 1] else layer
  }

  lemma RaisedJustified<T(!new)>(forward: map<T, set<T>>, R: set<T>, u: T, layer: map<T, nat>, v: T, w: T)
    requires u in forward && u !in R && v in forward[u] && v in R && u in layer && v in layer
    requires w in layer && (w != v || layer[v] >= layer[u] + 1) && Justified(forward, R, layer, w)
    ensures Justified(forward, R, Raised(layer, u, v), w)
  {
    var p :| p in forward && p !in R && p in layer && w in forward[p] && layer[w] == layer[p] + 1;
    var layer' := Raised(layer, u, v);
    assert p in layer' && layer'[p] == layer[p] && layer'[w] == layer[w];
  }

  lemma RaisedStays<T(!new)>(forward: map<T, set<T>>, R: set<T>, u: T, left: set<T>, layer: map<T, nat>, v: T, w: T)
    requires LayeredExcept(forward, R, u, left, layer)
    requires u in forward && u !in R && v in forward[u] && v in R && v in forward
    requires w in layer && Raised(layer, u, v)[w] > 0
    ensures Justified(forward, R, Raised(layer, u, v), w)
  {
    if w == v && layer[v] < layer[u] + 1 {
      var layer' := Raised(layer, u, v);
      assert u in layer' && v in forward[u] && layer'[v] == layer'[u] + 1;
    } else {
      assert Justified(forward, R, layer, w);
      RaisedJustified(forward, R, u, layer, v, w);
    }
  }

  lemma RaisedClimbs<T(!new)>(forward: map<T, set<T>>, R: set<T>, u: T, left: set<T>, layer: map<T, nat>, v: T)
    requires ClimbsExcept(forward, R, u, left, layer) && u !in R && v in R && u in layer && v in layer
    ensures ClimbsExcept(forward, R, u, left - {v}, Raised(layer, u, v))
  {
    var layer' := Raised(layer, u, v);
    forall n, w | n in forward && n !in R && w in forward[n] && !(n == u && w in left - {v})
      ensures n in layer' && w in layer' && layer'[n] < layer'[w]
    {
      assert layer'[u] == layer[u] < layer'[v];
      if !(n == u && w == v) {
        assert n in layer && w in layer && layer[n] < layer[w];
      }
    }
  }

  lemma RelaxLayer<T(!new)>(forward: map<T, set<T>>, R: set<T>, u: T, left: set<T>, layer: map<T, nat>, v: T)
    requires LayeredExcept(forward, R, u, left, layer)
    requires u in forward && u !in R && v in forward[u] && v in R && v in forward
    ensures LayeredExcept(forward, R, u, left - {v}, Raised(layer, u, v))
  {
    RaisedClimbs(forward, R, u, left, layer, v);
    forall w | w in layer && Raised(layer, u, v)[w] > 0 ensures Justified(forward, R, Raised(layer, u, v), w) {
      RaisedStays(forward, R, u, left, layer, v, w);
    }
  }

  lemma RelaxQueue<T(!new)>(R: set<T>, indeg: map<T, nat>, q: seq<T>, v: T)
    requires Queued(R, indeg, q) && v in R && v in indeg && indeg[v] > 0
    ensures Queued(R, indeg[v := indeg[v] - 1], if indeg[v] == 1 then q + [v] else q)
  {
    assert v !in q;
  }

  function Lowered<T>(indeg: map<T, nat>, v: T): map<T, nat>
    requires v in indeg && indeg[v] > 0
  {
    indeg[v := indeg[v] - 1]
  }

  lemma RelaxCount<T(!new)>(forward: map<T, set<T>>, R: set<T>, left: set<T>, indeg: map<T, nat>, v: T)
    requires CountedExcept(forward, R, left, indeg) && v in left && v in forward && v in R
    ensures indeg[v] > 0 && CountedExcept(forward, R, left - {v}, Lowered(indeg, v))
  {
  }

  /** Relaxing one edge (u, v). */
  lemma RelaxEdge<T(!new)>(forward: map<T, set<T>>, R: set<T>, u: T, left: set<T>,
                           indeg: map<T, nat>, layer: map<T, nat>, q: seq<T>, v: T)
    requires Relaxing(forward, R, u, left, indeg, layer, q) && v in left
    ensures u in layer && v in layer && v in indeg && indeg[v] > 0
    ensures Relaxing(forward, R, u, left - {v}, Lowered(indeg, v), Raised(layer, u, v),
                     if indeg[v] == 1 then q + [v] else q)
  {
    RelaxCount(forward, R, left, indeg, v);
    RelaxLayer(forward, R, u, left, layer, v);
    RelaxQueue(R, indeg, q, v);
  }

  lemma KahnStarts<T(!new)>(forward: map<T, set<T>>, indeg: map<T, nat>, layer: map<T, nat>)
    requires indeg.Keys == forward.Keys && layer.Keys == forward.Keys
    requires forall u | u in forward :: forward[u] <= forward.Keys && layer[u] == 0
    requires CountsInto(forward, forward.Keys, {}, indeg)
    ensures Counted(forward, forward.Keys, indeg) && LayeredSoFar(forward, forward.Keys, layer)
  {
  }

  lemma KahnEnds<T(!new)>(forward: map<T, set<T>>, layer: map<T, nat>)
    requires LayeredSoFar(forward, {}, layer)
    ensures Layered(EdgesOf(forward), layer)
  {
    forall v | v in layer && layer[v] > 0 ensures exists p :: (p, v) in EdgesOf(forward) && layer[v] == layer[p] + 1 {
      assert Justified(forward, {}, layer, v);
      var p :| p in forward && p in layer && v in forward[p] && layer[v] == layer[p] + 1;
      assert (p, v) in EdgesOf(forward);
    }
  }

  lemma LayeredAll<T(!new)>(forward: map<T, set<T>>, R: set<T>, indeg: map<T, nat>, layer: map<T, nat>, u: T, q: seq<T>)
    requires Relaxing(forward, R, u, {}, indeg, layer, q)
    ensures Counted(forward, R, indeg) && Queued(R, indeg, q) && LayeredSoFar(forward, R, layer)
  {
  }

  /** When the queue runs dry every node has been dequeued. */
  lemma QueueDry<T(!new)>(forward: map<T, set<T>>, rank: map<T, nat>, R: set<T>, indeg: map<T, nat>)
    requires Counted(forward, R, indeg) && Queued(R, indeg, []) && rank.Keys == forward.Keys
    requires forall e | e in EdgesOf(forward) :: e.0 in rank && e.1 in rank && rank[e.1] < rank[e.0]
    ensures R == {}
  {
    if r :| r in R {
      var v := SomeSource(forward, rank, R, r);
      assert false;
    }
  }

  /** Climbing from any waiting node to a waiting predecessor, again and again, ends at a
      waiting node without one: finishing numbers grow all the way. */
  lemma {:induction false} SomeSource<T(!new)>(forward: map<T, set<T>>, rank: map<T, nat>, R: set<T>, start: T)
    returns (v: T)
    requires start in R && R <= rank.Keys
    requires forall e | e in EdgesOf(forward) :: e.0 in rank && e.1 in rank && rank[e.1] < rank[e.0]
    ensures v in R && PredsIn(forward, R, v) == {}
    decreases set w | w in R && rank[w] > rank[start]
  {
    if PredsIn(forward, R, start) == {} {
      v := start;
    } else {
      var u :| u in PredsIn(forward, R, start);
      assert (u, start) in EdgesOf(forward);
      ghost var above, below := set w | w in R && rank[w] > rank[u], set w | w in R && rank[w] > rank[start];
      assert u in below && u !in above && above <= below;
      v := SomeSource(forward, rank, R, u);
    }
  }

  method InitialQueue<T(!new, ==)>(connected: seq<T>, indeg: map<T, nat>) returns (q: seq<T>)
    requires NoDuplicates(connected) && indeg.Keys == (set n | n in connected)
    ensures Queued(indeg.Keys, indeg, q)
  {
    q := [];
    for i := 0 to |connected|
      invariant NoDuplicates(q)
      invariant forall v :: v in q <==> v in connected[..i] && indeg[v] == 0
    {
      assert connected[..i + 1] == connected[..i] + [connected[i]];
      if indeg[connected[i]] == 0 {
        q := q + [connected[i]];
      }
    }
    assert connected[..|connected|] == connected;
  }

  ghost predicate KahnInv<T(!new)>(forward: map<T, set<T>>, R: set<T>, indeg: map<T, nat>, layer: map<T, nat>, q: seq<T>)
  {
    Counted(forward, R, indeg) && Queued(R, indeg, q) && LayeredSoFar(forward, R, layer)
  }

  /** Relaxes the outgoing edges of `u`, just dequeued. */
  method RelaxNode<T(!new, ==)>(forward: map<T, set<T>>, ghost R: set<T>, u: T, indeg0: map<T, nat>,
                                layer0: map<T, nat>, q0: seq<T>)
    returns (indeg: map<T, nat>, layer: map<T, nat>, q: seq<T>)
    requires u in forward && Relaxing(forward, R, u, forward[u], indeg0, layer0, q0)
    ensures KahnInv(forward, R, indeg, layer, q)
  {
    indeg, layer, q := indeg0, layer0, q0;
    var left := forward[u];
    while left != {}
      invariant Relaxing(forward, R, u, left, indeg, layer, q)
    {
      var v :| v in left;
      RelaxEdge(forward, R, u, left, indeg, layer, q, v);
      left := left - {v};
      if layer[u] + 1 > layer[v] {
        layer := layer[v := layer[u] + 1];
      }
      indeg := indeg[v := indeg[v] - 1];
      if indeg[v] == 0 {
        q := q + [v];
      }
    }
    LayeredAll(forward, R, indeg, layer, u, q);
  }

  /** Pops the queue and relaxes the outgoing edges of the popped node. */
  method DequeueNode<T(!new, ==)>(forward: map<T, set<T>>, ghost R: set<T>, indeg0: map<T, nat>,
                                  layer0: map<T, nat>, q0: seq<T>)
    returns (u: T, indeg: map<T, nat>, layer: map<T, nat>, q: seq<T>)
    requires q0 != [] && KahnInv(forward, R, indeg0, layer0, q0)
    ensures u in R && R <= forward.Keys && KahnInv(forward, R - {u}, indeg, layer, q)
  {
    u := q0[0];
    assert u in q0;
    Dequeue(forward, R, indeg0, layer0, q0);
    indeg, layer, q := RelaxNode(forward, R - {u}, u, indeg0, layer0, q0[1..]);
  }

  /** The finishing numbers drop along every kept edge. */
  ghost predicate Ranked<T(!new)>(forward: map<T, set<T>>, rank: map<T, nat>)
  {
    && rank.Keys == forward.Keys
    && forall e | e in EdgesOf(forward) :: e.0 in rank && e.1 in rank && rank[e.1] < rank[e.0]
  }

  method DrainQueue<T(!new, ==)>(forward: map<T, set<T>>, ghost rank: map<T, nat>, indeg0: map<T, nat>,
                                 layer0: map<T, nat>, q0: seq<T>)
    returns (layer: map<T, nat>, ghost order: seq<T>)
    requires KahnInv(forward, forward.Keys, indeg0, layer0, q0) && Ranked(forward, rank)
    ensures LayeredSoFar(forward, {}, layer) && Lists(order, forward.Keys)
  {
    ghost var R := forward.Keys;
    var indeg, q := indeg0, q0;
    layer, order := layer0, [];
    while q != []
      invariant KahnInv(forward, R, indeg, layer, q)
      invariant Lists(order, forward.Keys - R)
      decreases R
    {
      var u;
      u, indeg, layer, q := DequeueNode(forward, R, indeg, layer, q);
      ListsOneMore(order, forward.Keys, R, u);
      R := R - {u};
      order := order + [u];
    }
    QueueDry(forward, rank, R, indeg);
    assert forward.Keys - R == forward.Keys;
  }

  /** Kahn's algorithm with longest-path layers. `order` lists the nodes as dequeued. */
  method LongestPathLayers<T(!new, ==)>(connected: seq<T>, forward: map<T, set<T>>, ghost rank: map<T, nat>)
    returns (layer: map<T, nat>, ghost order: seq<T>)
    requires NoDuplicates(connected) && forward.Keys == (set n | n in connected) && Ranked(forward, rank)
    requires forall u | u in forward :: forward[u] <= forward.Keys
    ensures layer.Keys == forward.Keys && Layered(EdgesOf(forward), layer)
    ensures Lists(order, forward.Keys)
  {
    var indeg := CountInDegrees(connected, forward);
    layer := map n | n in connected :: 0;
    KahnStarts(forward, indeg, layer);
    var q := InitialQueue(connected, indeg);
    layer, order := DrainQueue(forward, rank, indeg, layer, q);
    KahnEnds(forward, layer);
  }

  // ---------------------------------------------------------------------------
  // The whole layout
  // ---------------------------------------------------------------------------

  /** The edges the layout is about: between known ids, self-loops ignored. */
  ghost function GraphOf<T(!new)>(ids: set<T>, edges: seq<(T, T)>): set<(T, T)>
  {
    set e | e in edges && e.0 in ids && e.1 in ids && e.0 != e.1
  }

  ghost predicate Incident<T(!new)>(E: set<(T, T)>, n: T)
  {
    exists e :: e in E && (e.0 == n || e.1 == n)
  }

  ghost predicate AdjacencyOf<T(!new)>(adj: map<T, set<T>>, incident: set<T>, ids: set<T>, E: set<(T, T)>)
  {
    && adj.Keys == ids
    && (forall u, v | u in adj :: v in adj[u] <==> (u, v) in E)
    && (forall n :: n in incident <==> Incident(E, n))
  }

  lemma AddAdjacency<T(!new)>(adj: map<T, set<T>>, incident: set<T>, ids: set<T>, E: set<(T, T)>, e: (T, T))
    requires AdjacencyOf(adj, incident, ids, E) && e.0 in ids && e.1 in ids
    ensures AdjacencyOf(adj[e.0 := adj[e.0] + {e.1}], incident + {e.0} + {e.1}, ids, E + {e})
  {
    forall n ensures Incident(E + {e}, n) <==> Incident(E, n) || n == e.0 || n == e.1 {
      if Incident(E, n) {
        var f :| f in E && (f.0 == n || f.1 == n);
        assert f in E + {e};
      }
      assert e in E + {e};
    }
  }

  method BuildAdjacency<T(!new, ==)>(ids: seq<T>, edges: seq<(T, T)>) returns (adj: map<T, set<T>>, incident: set<T>)
    ensures AdjacencyOf(adj, incident, Prefix(ids, |ids|), GraphOf(Prefix(ids, |ids|), edges))
  {
    ghost var nodes := Prefix(ids, |ids|);
    adj := map n | n in ids :: {};
    incident := {};
    assert GraphOf(nodes, edges[..0]) == {};
    for i := 0 to |edges|
      invariant AdjacencyOf(adj, incident, nodes, GraphOf(nodes, edges[..i]))
    {
      var (s, t) := edges[i];
      assert edges[..i + 1] == edges[..i] + [edges[i]];
      if s in ids && t in ids && s != t {
        AddAdjacency(adj, incident, nodes, GraphOf(nodes, edges[..i]), (s, t));
        assert GraphOf(nodes, edges[..i + 1]) == GraphOf(nodes, edges[..i]) + {(s, t)};
        adj := adj[s := adj[s] + {t}];
        incident := incident + {s} + {t};
      } else {
        assert GraphOf(nodes, edges[..i + 1]) == GraphOf(nodes, edges[..i]);
      }
    }
    assert edges[..|edges|] == edges;
  }

  /** `x` stands before `y` in the list. */
  ghost predicate Precedes<T(!new)>(s: seq<T>, x: T, y: T)
  {
    exists i, j :: 0 <= i < j < |s| && s[i] == x && s[j] == y
  }

  /** Two members of `s` stand in the order in which they stand in `t`. */
  ghost predicate Subsequence<T(!new)>(s: seq<T>, t: seq<T>)
  {
    forall x, y | Precedes(s, x, y) :: Precedes(t, x, y)
  }

  lemma SubsequenceAppend<T(!new)>(s: seq<T>, t: seq<T>, i: nat)
    requires Subsequence(s, t) && i < |t| && forall x | x in s :: x in Prefix(t, i)
    ensures Subsequence(s + [t[i]], t)
  {
    var more := s + [t[i]];
    forall x, y | Precedes(more, x, y) ensures Precedes(t, x, y) {
      var a, b :| 0 <= a < b < |more| && more[a] == x && more[b] == y;
      if b < |s| {
        assert s[a] == x && s[b] == y;
      } else {
        assert x in s;
        var j :| 0 <= j < i && t[j] == x;
        assert t[j] == x && t[i] == y;
      }
    }
  }

  /** `[n for n in ids if n in incident]` and its complement, in the order of `ids`. */
  method Partition<T(!new, ==)>(ids: seq<T>, incident: set<T>) returns (orphans: seq<T>, connected: seq<T>)
    requires NoDuplicates(ids)
    ensures Lists(orphans, Prefix(ids, |ids|) - incident) && Lists(connected, Prefix(ids, |ids|) * incident)
    ensures Subsequence(orphans, ids) && Subsequence(connected, ids)
  {
    orphans, connected := [], [];
    for i := 0 to |ids|
      invariant Lists(orphans, Prefix(ids, i) - incident) && Lists(connected, Prefix(ids, i) * incident)
      invariant Subsequence(orphans, ids) && Subsequence(connected, ids)
    {
      PrefixStep(ids, i);
      SubsequenceAppend(orphans, ids, i);
      SubsequenceAppend(connected, ids, i);
      if ids[i] in incident {
        ListsAdd(connected, Prefix(ids, i) * incident, ids[i]);
        assert Prefix(ids, i + 1) * incident == Prefix(ids, i) * incident + {ids[i]};
        assert Prefix(ids, i + 1) - incident == Prefix(ids, i) - incident;
        connected := connected + [ids[i]];
      } else {
        ListsAdd(orphans, Prefix(ids, i) - incident, ids[i]);
        assert Prefix(ids, i + 1) * incident == Prefix(ids, i) * incident;
        assert Prefix(ids, i + 1) - incident == Prefix(ids, i) - incident + {ids[i]};
        orphans := orphans + [ids[i]];
      }
    }
  }

  /** Every member of `S` is in its own layer, and nothing else is anywhere. */
  ghost predicate Grouped<T(!new)>(S: set<T>, layer: map<T, nat>, layers: map<nat, seq<T>>)
  {
    && (forall k | k in layers :: layers[k] != [] && NoDuplicates(layers[k]))
    && (forall k, n | k in layers && n in layers[k] :: n in S && n in layer && layer[n] == k)
    && (forall n | n in S :: n in layer && layer[n] in layers && n in layers[layer[n]])
  }

  /** `layers_map[layer[n]].append(n)` for every connected node. */
  method GroupByLayer<T(!new, ==)>(connected: seq<T>, ghost S: set<T>, layer: map<T, nat>) returns (layers: map<nat, seq<T>>)
    requires Lists(connected, S) && S <= layer.Keys
    ensures Grouped(S, layer, layers)
  {
    layers := map[];
    for i := 0 to |connected|
      invariant Grouped(Prefix(connected, i), layer, layers)
    {
      PrefixStep(connected, i);
      var n := connected[i];
      var row := if layer[n] in layers then layers[layer[n]] else [];
      layers := layers[layer[n] := row + [n]];
    }
    PrefixAll(connected);
    ListedKeys(connected, S);
  }

  /** The ranks rise along the list. */
  ghost predicate InOrder<T(!new)>(s: seq<T>, rank: map<T, int>)
  {
    forall i, j | 0 <= i < j < |s| && s[i] in rank && s[j] in rank :: rank[s[i]] <= rank[s[j]]
  }

  lemma InsertInOrder<T(!new)>(s: seq<T>, S: set<T>, rank: map<T, int>, n: T, p: nat)
    requires Lists(s, S) && n !in S && InOrder(s, rank) && p <= |s| && n in rank && S <= rank.Keys
    requires forall i | 0 <= i < p :: rank[s[i]] <= rank[n]
    requires p < |s| ==> rank[n] < rank[s[p]]
    ensures Lists(s[..p] + [n] + s[p..], S + {n}) && InOrder(s[..p] + [n] + s[p..], rank)
  {
    var more := s[..p] + [n] + s[p..];
    forall m ensures m in more <==> m in S + {n} {
      assert s == s[..p] + s[p..];
    }
    forall i, j | 0 <= i < j < |more| ensures more[i] != more[j] && rank[more[i]] <= rank[more[j]] {
      var a, b := if i < p then i else i - 1, if j < p then j else j - 1;
      assert i != p ==> more[i] == s[a];
      assert j != p ==> more[j] == s[b];
    }
  }

  /** `nodes.sort(key=name_of)`; `rank` is the place of each node's name in lower case among
      all of them. */
  method SortByName<T(!new, ==)>(nodes: seq<T>, rank: map<T, int>) returns (sorted: seq<T>)
    requires NoDuplicates(nodes) && forall n | n in nodes :: n in rank
    ensures Lists(sorted, Members(nodes)) && InOrder(sorted, rank)
  {
    sorted := [];
    for i := 0 to |nodes|
      invariant Lists(sorted, Prefix(nodes, i)) && InOrder(sorted, rank)
    {
      PrefixStep(nodes, i);
      assert forall m | m in sorted :: m in rank;
      var n, p := nodes[i], 0;
      while p < |sorted| && rank[sorted[p]] <= rank[n]
        invariant p <= |sorted| && forall k | 0 <= k < p :: rank[sorted[k]] <= rank[n]
      {
        p := p + 1;
      }
      InsertInOrder(sorted, Prefix(nodes, i), rank, n, p);
      sorted := sorted[..p] + [n] + sorted[p..];
    }
    PrefixAll(nodes);
    assert Members(nodes) == Prefix(nodes, |nodes|);
  }

  /** Every layer has the same nodes and is in the order of their names. */
  ghost predicate SortedLayers<T(!new)>(layers: map<nat, seq<T>>, sorted: map<nat, seq<T>>, done: set<nat>, rank: map<T, int>)
  {
    && sorted.Keys == layers.Keys
    && (forall k | k in layers && k in done :: Lists(sorted[k], Members(layers[k])) && InOrder(sorted[k], rank))
    && (forall k | k in layers && k !in done :: sorted[k] == layers[k])
  }

  /** `for nodes in layers_map.values(): nodes.sort(key=name_of)`. */
  method SortLayers<T(!new, ==)>(layers: map<nat, seq<T>>, rank: map<T, int>) returns (sorted: map<nat, seq<T>>)
    requires forall k | k in layers :: NoDuplicates(layers[k]) && forall n | n in layers[k] :: n in rank
    ensures SortedLayers(layers, sorted, layers.Keys, rank)
  {
    sorted := layers;
    var left := layers.Keys;
    while left != {}
      invariant left <= layers.Keys && SortedLayers(layers, sorted, layers.Keys - left, rank)
    {
      var k :| k in left;
      var row := SortByName(layers[k], rank);
      sorted, left := sorted[k := row], left - {k};
    }
  }

  lemma SortedIsGrouped<T(!new)>(S: set<T>, layer: map<T, nat>, layers: map<nat, seq<T>>, sorted: map<nat, seq<T>>, rank: map<T, int>)
    requires Grouped(S, layer, layers) && SortedLayers(layers, sorted, layers.Keys, rank)
    ensures Grouped(S, layer, sorted) && forall k | k in sorted :: InOrder(sorted[k], rank)
  {
    forall k | k in sorted ensures sorted[k] != [] && forall n :: n in sorted[k] <==> n in layers[k] {
      assert layers[k][0] in Members(layers[k]);
      assert layers[k][0] in sorted[k];
    }
  }

  /** What the layout promises: `F` is the graph with its back-edges removed, every node
      with an edge sits in the layer that is its longest distance from a source of `F`,
      and the others are the orphans. */
  ghost predicate IsLayout<T(!new)>(ids: set<T>, E: set<(T, T)>, F: set<(T, T)>, layers: map<nat, seq<T>>, orphans: seq<T>)
  {
    && MaximalAcyclic(E, F)
    && Lists(orphans, set n | n in ids && !Incident(E, n))
    && (forall n | n in ids && Incident(E, n) :: exists k :: k in layers && n in layers[k])
    && (forall k | k in layers :: layers[k] != [] && NoDuplicates(layers[k]))
    && (forall k, n | k in layers && n in layers[k] :: n in ids && Incident(E, n) && LongestTo(F, n, k))
    && (forall k, j: nat | k in layers && j < k :: j in layers)
  }

  lemma LayoutFacts<T(!new)>(ids: set<T>, E: set<(T, T)>, F: set<(T, T)>, layers: map<nat, seq<T>>, orphans: seq<T>,
                             incident: set<T>, layer: map<T, nat>)
    requires MaximalAcyclic(E, F) && Layered(F, layer)
    requires (forall n :: n in incident <==> Incident(E, n)) && layer.Keys == ids * incident
    requires Lists(orphans, ids - incident)
    requires Grouped(ids * incident, layer, layers)
    ensures IsLayout(ids, E, F, layers, orphans)
  {
    assert (set n | n in ids && !Incident(E, n)) == ids - incident;
    forall n | n in ids && Incident(E, n) ensures exists k :: k in layers && n in layers[k] {
      assert n in layers[layer[n]];
    }
    forall k, n | k in layers && n in layers[k] ensures LongestTo(F, n, k) {
      LayeredIsLongest(F, layer, n);
    }
    forall k, j: nat | k in layers && j < k ensures j in layers {
      assert layers[k][0] in layers[k];
      var w := NoGaps(F, layer, layers[k][0], j);
    }
  }

  lemma AllEdgesConnected<T(!new)>(adj: map<T, set<T>>, incident: set<T>, ids: set<T>, E: set<(T, T)>)
    requires AdjacencyOf(adj, incident, ids, E) && forall e | e in E :: e.0 in ids && e.1 in ids
    ensures EdgesWithin(adj, ids * incident) == E
  {
    forall e | e in E ensures e in EdgesWithin(adj, ids * incident) {
      assert Incident(E, e.0) && Incident(E, e.1);
    }
  }

  /** What holds of the roots holds of all ids: the others have no edges. */
  lemma IdsTopmost<T(!new)>(ids: seq<T>, roots: seq<T>, E: set<(T, T)>, F: set<(T, T)>)
    requires NoDuplicates(ids) && Subsequence(roots, ids) && F <= E && RootsTopmost(E, F, roots)
    requires forall n :: n in roots <==> n in ids && Incident(E, n)
    ensures RootsTopmost(E, F, ids)
  {
    forall k | 0 <= k < |ids| && Foremost(E, ids, k) ensures Topmost(E, F, ids[k]) {
      if Incident(E, ids[k]) {
        var i :| 0 <= i < |roots| && roots[i] == ids[k];
        forall j | 0 <= j < i ensures !Reach(E, roots[j], roots[i]) {
          assert Precedes(roots, roots[j], roots[i]);
          var a, b :| 0 <= a < b < |ids| && ids[a] == roots[j] && ids[b] == roots[i];
          assert b == k;
        }
        assert Foremost(E, roots, i);
      }
    }
  }

  /** Back-edge removal and layering, on the connected nodes. */
  method LayerConnected<T(!new, ==)>(connected: seq<T>, adj: map<T, set<T>>, ghost nodes: set<T>)
    returns (layer: map<T, nat>, ghost F: set<(T, T)>)
    requires Lists(connected, nodes) && nodes <= adj.Keys
    ensures MaximalAcyclic(EdgesWithin(adj, nodes), F) && layer.Keys == nodes && Layered(F, layer)
    ensures RootsTopmost(EdgesWithin(adj, nodes), F, connected)
  {
    ghost var rank, looked, order;
    var forward;
    ListedKeys(connected, nodes);
    forward, rank, looked := DropBackEdges(connected, adj);
    F := EdgesOf(forward);
    forall u, v | u in forward && v in forward[u] ensures v in forward {
      assert (u, v) in F;
    }
    layer, order := LongestPathLayers(connected, forward, rank);
  }

  /** `_layer_nodes`; `rank` orders the names. The ghost result is the acyclic graph the layers are measured in. */
  method LayerNodes<T(!new, ==)>(ids: seq<T>, edges: seq<(T, T)>, rank: map<T, int>)
    returns (layers: map<nat, seq<T>>, orphans: seq<T>, adj: map<T, set<T>>, ghost F: set<(T, T)>)
    requires NoDuplicates(ids) && forall n | n in ids :: n in rank
    ensures IsLayout(Prefix(ids, |ids|), GraphOf(Prefix(ids, |ids|), edges), F, layers, orphans)
    ensures forall k | k in layers :: InOrder(layers[k], rank)
    ensures RootsTopmost(GraphOf(Prefix(ids, |ids|), edges), F, ids)
    ensures adj.Keys == Prefix(ids, |ids|)
    ensures forall u, v | u in adj :: v in adj[u] <==> (u, v) in GraphOf(Prefix(ids, |ids|), edges)
  {
    ghost var nodes := Prefix(ids, |ids|);
    ghost var E := GraphOf(nodes, edges);
    var incident, connected, layer;
    adj, incident := BuildAdjacency(ids, edges);
    AllEdgesConnected(adj, incident, nodes, E);
    orphans, connected := Partition(ids, incident);
    layer, F := LayerConnected(connected, adj, nodes * incident);
    PrefixAll(ids);
    IdsTopmost(ids, connected, E, F);
    var groups := GroupByLayer(connected, nodes * incident, layer);
    PrefixAll(ids);
    forall k, n | k in groups && n in groups[k] ensures n in rank {
      assert n in nodes && n in ids;
    }
    layers := SortLayers(groups, rank);
    SortedIsGrouped(nodes * incident, layer, groups, layers, rank);
    LayoutFacts(nodes, E, F, layers, orphans, incident, layer);
  }

  /** A node appears in one layer only, and every kept edge leads to a later layer. */
  lemma LayoutClimbs<T(!new)>(ids: set<T>, E: set<(T, T)>, F: set<(T, T)>, layers: map<nat, seq<T>>, orphans: seq<T>,
                              u: T, v: T, i: nat, j: nat)
    requires IsLayout(ids, E, F, layers, orphans)
    requires i in layers && u in layers[i] && j in layers && v in layers[j]
    ensures u == v ==> i == j
    ensures (u, v) in F ==> i < j
    ensures Acyclic(E) && (u, v) in E ==> i < j
  {
    assert LongestTo(F, u, i) && LongestTo(F, v, j);
    var s :| Steps(F, s, u, i);
    if (u, v) in F {
      assert Steps(F, s, v, i + 1);
    }
    var t :| Steps(F, t, v, j);
    NothingDropped(E, F);
  }
}
