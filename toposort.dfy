/** Kahn's algorithm over a set of directed edges `(tail, head)`, as
    `topological_sort` runs it: an adjacency dict of sets, a set of nodes without
    incoming edges that is popped until empty, and a cycle check on whatever
    edges are left. */
module TopoSort {
  import opened Wrappers

  /** Every node that occurs in an edge, as tail or as head. */
  ghost function Nodes<T>(edges: set<(T, T)>): set<T> {
    (set e | e in edges :: e.0) + (set e | e in edges :: e.1)
  }

  ghost predicate Distinct<T>(s: seq<T>) {
    forall i, j :: 0 <= i < j < |s| ==> s[i] != s[j]
  }

  /** `s` lists every node of `edges` exactly once, every tail before its head. */
  ghost predicate IsTopologicalOrder<T(!new)>(edges: set<(T, T)>, s: seq<T>) {
    && Distinct(s)
    && (forall x :: x in s <==> x in Nodes(edges))
    && (forall i, j :: 0 <= i < |s| && 0 <= j < |s| && (s[i], s[j]) in edges ==> i < j)
  }

  /** A walk of at least one edge. */
  ghost predicate IsPath<T>(edges: set<(T, T)>, p: seq<T>) {
    |p| >= 2 && forall i :: 0 <= i < |p| - 1 ==> (p[i], p[i + 1]) in edges
  }

  /** Some walk of at least one edge comes back to where it started. */
  ghost predicate Cyclic<T(!new)>(edges: set<(T, T)>) {
    exists p :: IsPath(edges, p) && p[0] == p[|p| - 1]
  }

  lemma {:induction false} PathClimbs<T(!new)>(edges: set<(T, T)>, s: seq<T>, p: seq<T>, k: nat, pos: map<T, nat>)
    requires IsTopologicalOrder(edges, s) && IsPath(edges, p)
    requires forall x :: x in s ==> x in pos && pos[x] < |s| && s[pos[x]] == x
    requires 1 <= k < |p|
    ensures p[0] in pos && p[k] in pos && pos[p[0]] < pos[p[k]]
  {
    assert (p[k - 1], p[k]) in edges;
    assert p[k - 1] in Nodes(edges) && p[k] in Nodes(edges);
    assert s[pos[p[k - 1]]] == p[k - 1] && s[pos[p[k]]] == p[k];
    if k > 1 {
      PathClimbs(edges, s, p, k - 1, pos);
    }
  }

  /** A topological order rules a cycle out. */
  lemma OrderedIsAcyclic<T(!new)>(edges: set<(T, T)>, s: seq<T>)
    requires IsTopologicalOrder(edges, s)
    ensures !Cyclic(edges)
  {
    if p :| IsPath(edges, p) && p[0] == p[|p| - 1] {
      var pos := map x | x in s :: IndexOf(s, x);
      PathClimbs(edges, s, p, |p| - 1, pos);
    }
  }

  ghost function IndexOf<T>(s: seq<T>, x: T): (i: nat)
    requires x in s
    ensures i < |s| && s[i] == x
  {
    if s[0] == x then 0 else 1 + IndexOf(s[1..], x)
  }

  /** A non-empty set of nodes each of which has a predecessor inside the set
      holds a cycle: walking backwards must revisit a node. */
  lemma {:induction false} PredecessorClosedIsCyclic<T(!new)>(edges: set<(T, T)>, u: set<T>)
    requires u != {}
    requires forall y :: y in u ==> exists x :: x in u && (x, y) in edges
    ensures Cyclic(edges)
  {
    var y :| y in u;
    var walk := [y];
    var seen := {y};
    while true
      invariant |walk| >= 1 && seen <= u && walk[0] in seen
      invariant forall z :: z in seen ==> z in walk
      invariant IsWalk(edges, walk)
      decreases u - seen
    {
      var x :| x in u && (x, walk[0]) in edges;
      if x in seen {
        var j :| 0 <= j < |walk| && walk[j] == x;
        ClosedWalk(edges, walk, j, x);
        return;
      }
      walk := [x] + walk;
      seen := seen + {x};
    }
  }

  /** Consecutive elements are joined by edges. */
  ghost predicate IsWalk<T>(edges: set<(T, T)>, w: seq<T>) {
    forall i :: 0 <= i < |w| - 1 ==> (w[i], w[i + 1]) in edges
  }

  /** An edge from `w[j]` back to the start of the walk closes a cycle. */
  lemma ClosedWalk<T(!new)>(edges: set<(T, T)>, w: seq<T>, j: nat, x: T)
    requires IsWalk(edges, w) && j < |w| && w[j] == x && (x, w[0]) in edges
    ensures Cyclic(edges)
  {
    var cycle := [x] + w[..j + 1];
    assert IsPath(edges, cycle) && cycle[0] == cycle[|cycle| - 1];
  }

  /** Some node of `graph` points at `y`. */
  predicate HasIncoming<T>(graph: map<T, set<T>>, y: T) {
    exists k :: k in graph && y in graph[k]
  }

  /** The dict holds exactly the edges whose tail has not been output yet. */
  ghost predicate Represents<T(!new)>(graph: map<T, set<T>>, edges: set<(T, T)>, done: set<T>) {
    forall x, y :: x in graph && y in graph[x] <==> (x, y) in edges && x !in done
  }

  /** Tails come before heads among the nodes output so far. */
  ghost predicate Ordered<T>(edges: set<(T, T)>, s: seq<T>) {
    forall i, j :: 0 <= i < |s| && 0 <= j < |s| && (s[i], s[j]) in edges ==> i < j
  }

  /** What holds each time the `while no_incoming_edges` loop is entered:
      `ready` is `no_incoming_edges`, `done` the set of nodes in `result`. */
  ghost predicate KahnInvariant<T(!new)>(edges: set<(T, T)>, nodes: set<T>, graph: map<T, set<T>>,
                                   ready: set<T>, done: set<T>, result: seq<T>) {
    && nodes == Nodes(edges)
    && graph.Keys == nodes && ready <= nodes && done <= nodes && ready !! done
    && (forall x :: x in done <==> x in result)
    && Distinct(result)
    && Represents(graph, edges, done)
    && (forall x :: x in ready ==> !HasIncoming(graph, x))
    && (forall y :: y in nodes && y !in done && y !in ready ==> HasIncoming(graph, y))
    && (forall x, y :: (x, y) in edges && y in done ==> x in done)
    && Ordered(edges, result)
  }

  /** The dict `topological_sort` builds from the edge set: one key per node,
      mapped to the set of its successors. */
  method BuildGraph<T(==,!new)>(edges: set<(T, T)>) returns (graph: map<T, set<T>>)
    ensures graph.Keys == Nodes(edges)
    ensures Represents(graph, edges, {})
  {
    graph := map[];
    var rest := edges;
    while rest != {}
      invariant rest <= edges
      invariant graph.Keys == Nodes(edges - rest)
      invariant Represents(graph, edges - rest, {})
      decreases rest
    {
      var e :| e in rest;
      var (x, y) := e;
      if x !in graph {
        graph := graph[x := {y}];
      } else {
        graph := graph[x := graph[x] + {y}];
      }
      if y !in graph {
        graph := graph[y := {}];
      }
      rest := rest - {e};
      assert Nodes(edges - rest) == Nodes(edges - (rest + {e})) + {x, y};
    }
    assert edges - rest == edges;
  }

  /** The inner `for m in set(graph[node])` loop: removes every edge leaving
      `node` and adds each successor left without incoming edges to `ready`. */
  method RemoveOutgoing<T(==)>(graph: map<T, set<T>>, node: T, ready: set<T>)
    returns (g: map<T, set<T>>, r: set<T>)
    requires node in graph
    ensures g == graph[node := {}]
    ensures r == ready + set m | m in graph[node] && !HasIncoming(g, m)
  {
    ghost var final := graph[node := {}];
    g, r := graph, ready;
    var succ := graph[node];
    while succ != {}
      invariant succ <= graph[node]
      invariant g == graph[node := succ]
      invariant r == ready + set m | m in graph[node] - succ && !HasIncoming(final, m)
      decreases succ
    {
      var m :| m in succ;
      g := g[node := g[node] - {m}];
      succ := succ - {m};
      assert HasIncoming(g, m) <==> HasIncoming(final, m) by {
        if HasIncoming(g, m) {
          var k :| k in g && m in g[k];
          assert k != node && k in final && m in final[k];
        }
        if HasIncoming(final, m) {
          var k :| k in final && m in final[k];
          assert k in g && m in g[k];
        }
      }
      if !HasIncoming(g, m) {
        r := r + {m};
      }
    }
  }

  /** One turn of the outer loop keeps the invariant. */
  lemma KahnStep<T(!new)>(edges: set<(T, T)>, nodes: set<T>, graph: map<T, set<T>>,
                          ready: set<T>, done: set<T>, result: seq<T>, node: T)
    requires KahnInvariant(edges, nodes, graph, ready, done, result)
    requires node in ready
    ensures var g := graph[node := {}];
      KahnInvariant(edges, nodes, g,
                    (ready - {node}) + (set m | m in graph[node] && !HasIncoming(g, m)),
                    done + {node}, result + [node])
  {
    var g := graph[node := {}];
    var freed := set m | m in graph[node] && !HasIncoming(g, m);
    var ready' := (ready - {node}) + freed;
    StepNeighbours(edges, nodes, graph, ready, done, node);
    StepRepresents(edges, graph, done, node);
    StepReady(graph, ready, node);
    StepBlocked(nodes, graph, ready, done, node);
    StepOrdered(edges, done, result, node);
    assert ready' !! done + {node};
  }

  /** The node taken from `ready` has all its predecessors output and none of
      its successors; every successor is a node still in the dict. */
  lemma StepNeighbours<T(!new)>(edges: set<(T, T)>, nodes: set<T>, graph: map<T, set<T>>,
                                ready: set<T>, done: set<T>, node: T)
    requires nodes == Nodes(edges) && graph.Keys == nodes && ready <= nodes && ready !! done
    requires Represents(graph, edges, done)
    requires forall x :: x in ready ==> !HasIncoming(graph, x)
    requires forall x, y :: (x, y) in edges && y in done ==> x in done
    requires node in ready
    ensures forall x :: (x, node) in edges ==> x in done
    ensures forall m :: (node, m) in edges <==> m in graph[node]
    ensures forall m :: m in graph[node] ==> m !in done && m != node && m in nodes
  {
    forall x | (x, node) in edges
      ensures x in done
    {
      assert !(x in graph && node in graph[x]);
    }
    forall m | (node, m) in edges
      ensures m !in done && m != node && m in nodes
    {
      assert m in Nodes(edges);
    }
  }

  lemma StepRepresents<T(!new)>(edges: set<(T, T)>, graph: map<T, set<T>>, done: set<T>, node: T)
    requires Represents(graph, edges, done) && node in graph
    ensures Represents(graph[node := {}], edges, done + {node})
  {
  }

  /** Nodes that were ready stay ready; freed successors are ready. */
  lemma StepReady<T(!new)>(graph: map<T, set<T>>, ready: set<T>, node: T)
    requires node in graph
    requires forall x :: x in ready ==> !HasIncoming(graph, x)
    ensures var g := graph[node := {}];
      forall x :: x in (ready - {node}) + (set m | m in graph[node] && !HasIncoming(g, m)) ==> !HasIncoming(g, x)
  {
    var g := graph[node := {}];
    forall x | x in ready
      ensures !HasIncoming(g, x)
    {
      IncomingShrinks(graph, g, x);
    }
  }

  /** A node neither output nor ready still has an incoming edge. */
  lemma StepBlocked<T(!new)>(nodes: set<T>, graph: map<T, set<T>>, ready: set<T>, done: set<T>, node: T)
    requires node in ready && node in graph
    requires forall y :: y in nodes && y !in done && y !in ready ==> HasIncoming(graph, y)
    ensures var g := graph[node := {}];
      var ready' := (ready - {node}) + (set m | m in graph[node] && !HasIncoming(g, m));
      forall y :: y in nodes && y !in done + {node} && y !in ready' ==> HasIncoming(g, y)
  {
    var g := graph[node := {}];
    var ready' := (ready - {node}) + (set m | m in graph[node] && !HasIncoming(g, m));
    forall y | y in nodes && y !in done + {node} && y !in ready'
      ensures HasIncoming(g, y)
    {
      var k :| k in graph && y in graph[k];
      assert k != node ==> y in g[k];
    }
  }

  /** Appending the node keeps tails before heads and keeps the output closed
      under predecessors. */
  lemma StepOrdered<T(!new)>(edges: set<(T, T)>, done: set<T>, result: seq<T>, node: T)
    requires forall x :: x in done <==> x in result
    requires Distinct(result) && node !in done
    requires Ordered(edges, result)
    requires forall x, y :: (x, y) in edges && y in done ==> x in done
    requires forall x :: (x, node) in edges ==> x in done
    requires forall m :: (node, m) in edges ==> m !in done && m != node
    ensures Ordered(edges, result + [node]) && Distinct(result + [node])
    ensures forall x, y :: (x, y) in edges && y in done + {node} ==> x in done + {node}
  {
    var r := result + [node];
    forall i, j | 0 <= i < |r| && 0 <= j < |r| && (r[i], r[j]) in edges
      ensures i < j
    {
      assert r[|result|] == node;
      assert j < |result| ==> r[j] == result[j];
      assert r[j] in done || r[j] == node;
      assert (node, r[j]) !in edges;
      assert i < |result|;
      assert r[i] == result[i];
    }
  }

  /** Emptying one successor set removes incoming edges, never adds one. */
  lemma IncomingShrinks<T>(graph: map<T, set<T>>, g: map<T, set<T>>, x: T)
    requires g.Keys == graph.Keys
    requires forall k :: k in g ==> g[k] <= graph[k]
    ensures HasIncoming(g, x) ==> HasIncoming(graph, x)
  {
    if HasIncoming(g, x) {
      var k :| k in g && x in g[k];
      assert x in graph[k];
    }
  }

  /** When no node is ready, the edges left over witness a cycle. */
  lemma KahnStuck<T(!new)>(edges: set<(T, T)>, nodes: set<T>, graph: map<T, set<T>>,
                           done: set<T>, result: seq<T>, x: T)
    requires KahnInvariant(edges, nodes, graph, {}, done, result)
    requires x in graph && graph[x] != {}
    ensures Cyclic(edges)
  {
    var u := nodes - done;
    var y :| y in graph[x];
    assert x in u;
    forall v | v in u
      ensures exists k :: k in u && (k, v) in edges
    {
      var k :| k in graph && v in graph[k];
      assert k in u;
    }
    PredecessorClosedIsCyclic(edges, u);
  }

  /** When no node is ready and no edge is left, every node has been output. */
  lemma KahnFinished<T(!new)>(edges: set<(T, T)>, graph: map<T, set<T>>,
                              done: set<T>, result: seq<T>)
    requires KahnInvariant(edges, Nodes(edges), graph, {}, done, result)
    requires forall x :: x in graph ==> graph[x] == {}
    ensures IsTopologicalOrder(edges, result)
  {
    forall x | x in Nodes(edges)
      ensures x in done
    {
      assert !HasIncoming(graph, x);
    }
  }

  /** `topological_sort(edges)`: on success every node of `edges` exactly once,
      tails before heads; the ValueError exactly when the edges hold a cycle. */
  method TopologicalSort<T(==,!new)>(edges: set<(T, T)>) returns (r: Result<seq<T>>)
    ensures r.Success? ==> IsTopologicalOrder(edges, r.value)
    ensures r.Failure? ==> r.error == CyclicDependency
    ensures r.Failure? <==> Cyclic(edges)
  {
    var graph := BuildGraph(edges);
    ghost var nodes := graph.Keys;
    ghost var done: set<T> := {};
    var result: seq<T> := [];
    var ready := set x | x in graph && !HasIncoming(graph, x);
    while ready != {}
      invariant KahnInvariant(edges, nodes, graph, ready, done, result)
      decreases nodes - done
    {
      var node :| node in ready;
      KahnStep(edges, nodes, graph, ready, done, result, node);
      result := result + [node];
      done := done + {node};
      graph, ready := RemoveOutgoing(graph, node, ready - {node});
    }
    if exists x :: x in graph && graph[x] != {} {
      var x :| x in graph && graph[x] != {};
      KahnStuck(edges, nodes, graph, done, result, x);
      return Failure(CyclicDependency);
    }
    KahnFinished(edges, graph, done, result);
    OrderedIsAcyclic(edges, result);
    return Success(result);
  }
}
