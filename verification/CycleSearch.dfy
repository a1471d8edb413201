/** The depth-first search that names a cycle among migrations that cannot be placed. */
module CycleSearch {
  import opened Text

  type Edges = map<nat, seq<nat>>

  function Dependents(adj: Edges, j: nat): seq<nat> {
    if j in adj then adj[j] else []
  }

  /** Every edge stays inside `nodes`. */
  ghost predicate Closed(adj: Edges, nodes: set<nat>) {
    forall j, i :: j in adj && i in adj[j] ==> i in nodes
  }

  // ------------------------------------------------------------ walks

  ghost predicate Walk(adj: Edges, w: seq<nat>) {
    w != [] && forall k :: 0 <= k < |w| - 1 ==> w[k + 1] in Dependents(adj, w[k])
  }

  ghost predicate ClosedWalk(adj: Edges, c: seq<nat>) {
    Walk(adj, c) && c[0] in Dependents(adj, c[|c| - 1])
  }

  /** A walk that comes back to a place it has been. */
  ghost predicate Lasso(adj: Edges, w: seq<nat>) {
    Walk(adj, w) && exists i, j :: 0 <= i < j < |w| && w[i] == w[j]
  }

  ghost predicate LeadsIntoCycle(adj: Edges, start: nat) {
    exists w :: Lasso(adj, w) && w[0] == start
  }

  // ------------------------------------------------------------ finished nodes

  /** Every node's dependents finished before it. */
  ghost predicate Finished(adj: Edges, f: seq<nat>) {
    forall p, i :: 0 <= p < |f| && i in Dependents(adj, f[p]) ==> i in f[..p]
  }

  /** A walk from a finished node stays among nodes finished no later, so it never
      comes back. */
  lemma {:induction false} FinishedLeadsNowhere(adj: Edges, f: seq<nat>, w: seq<nat>, p: nat)
    requires Finished(adj, f) && Walk(adj, w) && p < |f| && w[0] == f[p]
    requires forall a, b :: 0 <= a < b < |f| ==> f[a] != f[b]
    ensures forall k :: 0 < k < |w| ==> w[k] in f[..p]
    ensures !Lasso(adj, w)
    decreases |w|
  {
    if |w| > 1 {
      assert w[1] in Dependents(adj, w[0]);
      var q :| 0 <= q < p && f[q] == w[1];
      assert Walk(adj, w[1..]);
      FinishedLeadsNowhere(adj, f, w[1..], q);
      forall k | 0 < k < |w| ensures w[k] in f[..p] {
        if k > 1 { assert w[1..][k - 1] == w[k]; }
      }
      forall i, j | 0 <= i < j < |w| ensures w[i] != w[j] {
        if i > 0 {
          assert w[1..][i - 1] == w[i] && w[1..][j - 1] == w[j];
        }
      }
    }
  }

  // ------------------------------------------------------------ the search

  /** The nodes on the stack form a walk, and every other visited node is finished. */
  ghost predicate Inv(adj: Edges, visited: set<nat>, stack: seq<nat>, onStack: set<nat>, finished: seq<nat>) {
    && (stack != [] ==> Walk(adj, stack))
    && (forall a, b :: 0 <= a < b < |stack| ==> stack[a] != stack[b])
    && (forall a, b :: 0 <= a < b < |finished| ==> finished[a] != finished[b])
    && (forall i :: i in onStack <==> i in stack)
    && (forall i :: i in visited <==> i in stack || i in finished)
    && (forall i :: i in stack ==> i !in finished)
    && Finished(adj, finished)
  }

  lemma {:induction false} Push(adj: Edges, visited: set<nat>, stack: seq<nat>, onStack: set<nat>, finished: seq<nat>,
        node: nat)
    requires Inv(adj, visited, stack, onStack, finished) && node !in visited
    requires stack != [] ==> node in Dependents(adj, stack[|stack| - 1])
    ensures Inv(adj, visited + {node}, stack + [node], onStack + {node}, finished)
  {
  }

  lemma {:induction false} Pop(adj: Edges, visited: set<nat>, stack: seq<nat>, onStack: set<nat>, finished: seq<nat>,
        node: nat)
    requires Inv(adj, visited, stack + [node], onStack, finished)
    requires forall i :: i in Dependents(adj, node) ==> i in finished
    ensures Inv(adj, visited, stack, onStack - {node}, finished + [node])
  {
    var path, f := stack + [node], finished + [node];
    assert path[|stack|] == node;
    if stack != [] {
      forall k | 0 <= k < |stack| - 1 ensures stack[k + 1] in Dependents(adj, stack[k]) {
        assert path[k + 1] in Dependents(adj, path[k]);
      }
    }
    forall p, i | 0 <= p < |f| && i in Dependents(adj, f[p]) ensures i in f[..p] {
      if p < |finished| { assert f[..p] == finished[..p]; } else { assert f[..p] == finished; }
    }
    forall a, b | 0 <= a < b < |stack| ensures stack[a] != stack[b] {
      assert path[a] != path[b];
    }
    assert node in path && node !in finished;
    forall i ensures i in stack <==> i in path && i != node {
      if i in stack {
        var a :| 0 <= a < |stack| && stack[a] == i;
        assert path[a] == i && path[a] != path[|stack|];
      }
    }
    forall i ensures i in f <==> i in finished || i == node {
    }
  }

  lemma {:induction false} Found(adj: Edges, stack: seq<nat>, j: nat)
    requires Walk(adj, stack) && j < |stack| && stack[j] in Dependents(adj, stack[|stack| - 1])
    ensures ClosedWalk(adj, stack[j..]) && LeadsIntoCycle(adj, stack[0])
  {
    var w := stack + [stack[j]];
    assert w[j] == w[|stack|];
    assert Lasso(adj, w);
  }

  class Search {
    const adj: Edges
    var visited: set<nat>
    var stack: seq<nat>
    var onStack: set<nat>
    ghost const nodes: set<nat>
    ghost var finished: seq<nat>

    constructor (adj: Edges, ghost nodes: set<nat>)
      requires Closed(adj, nodes)
      ensures this.adj == adj && this.nodes == nodes
      ensures stack == [] && finished == [] && visited == {} && Valid()
    {
      this.adj, this.nodes := adj, nodes;
      visited, stack, onStack := {}, [], {};
      finished := [];
    }

    ghost predicate Valid()
      reads this
    {
      Closed(adj, nodes) && visited <= nodes && Inv(adj, visited, stack, onStack, finished)
    }

    /** Either a closed walk is found, or `node` and all it leads to are finished. */
    method Visit(node: nat) returns (cycle: Option<seq<nat>>)
      requires Valid() && node in nodes && node !in visited
      requires stack != [] ==> node in Dependents(adj, stack[|stack| - 1])
      modifies this
      ensures cycle.Some? ==> ClosedWalk(adj, cycle.value)
      ensures cycle.Some? ==> LeadsIntoCycle(adj, (old(stack) + [node])[0])
      ensures cycle.None? ==> Valid() && stack == old(stack) && node in finished && old(visited) <= visited
      decreases nodes - visited
    {
      Push(adj, visited, stack, onStack, finished, node);
      ghost var before := stack;
      visited := visited + {node};
      stack := stack + [node];
      onStack := onStack + {node};
      var next := Dependents(adj, node);
      for k := 0 to |next|
        invariant Valid() && stack == before + [node] && old(visited) + {node} <= visited
        invariant forall i :: 0 <= i < k ==> next[i] in finished
      {
        if next[k] in onStack {
          var j :| 0 <= j < |stack| && stack[j] == next[k];
          Found(adj, stack, j);
          return Some(stack[j..]);
        }
        if next[k] !in visited {
          cycle := Visit(next[k]);
          if cycle.Some? {
            assert (before + [node] + [next[k]])[0] == (before + [node])[0];
            return;
          }
        }
      }
      Pop(adj, visited, before, onStack, finished, node);
      stack := stack[..|stack| - 1];
      onStack := onStack - {node};
      finished := finished + [node];
      return None;
    }
  }
}
